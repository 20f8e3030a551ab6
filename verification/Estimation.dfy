/** The estimation report as a function of the nodes, the pending pods and the
    order the sort leaves the pods in, and what a report promises. */
module Estimation {
  import opened Wrappers
  import opened Cluster
  import opened Sums
  import opened Packing
  import opened PackingBounds
  import opened Decreasing
  import opened Convergence
  import opened Filters
  import opened ClusterView

  const WORKER_LABEL := "node-role.kubernetes.io/worker"

  /** Two virtual CPUs and four gibibytes. */
  const DEFAULT_TEMPLATE := Template(2000, 4 * 1024 * MIB, Some(map[WORKER_LABEL := ""]), [])

  datatype Placement = ZeroRequest | OnNode(name: string) | OnNewNode(j: nat)

  datatype Reason = UnsupportedConstraint(why: Unsupported) | ExceedsTemplate | TemplateConstraints

  /** Both maps are keyed by pod name alone. */
  datatype Report = Report(delta: ResourceDelta, nodesNeeded: nat,
                           placed: map<string, Placement>, infeasible: map<string, Reason>)

  // ------------------------------------------------------- candidates and pods

  predicate Usable(n: NodeInfo) { n.ready && !n.unschedulable }

  function NotBelowZero(x: int): nat { if x < 0 then 0 else x }

  function CandidateBin(n: NodeInfo): Bin {
    Bin(NotBelowZero(n.allocCPU - n.usedCPU), NotBelowZero(n.allocMem - n.usedMem), n.labels, n.taints)
  }

  function UsableNodes(nodes: seq<NodeInfo>): seq<NodeInfo> {
    if nodes == [] then []
    else
      var n := |nodes| - 1;
      UsableNodes(nodes[..n]) + if Usable(nodes[n]) then [nodes[n]] else []
  }

  function BinsFor(nodes: seq<NodeInfo>): (bins: seq<Bin>)
    ensures |bins| == |nodes| && forall i :: 0 <= i < |nodes| ==> bins[i] == CandidateBin(nodes[i])
  {
    seq(|nodes|, i requires 0 <= i < |nodes| => CandidateBin(nodes[i]))
  }

  function Start(nodes: seq<NodeInfo>): Bins {
    Bins(BinsFor(UsableNodes(nodes)), [])
  }

  predicate Feasible(p: PodInfo) { p.unsupported.None? && !(p.cpu == 0 && p.mem == 0) }

  function FeasiblePods(pods: seq<PodInfo>): seq<PodInfo> {
    if pods == [] then []
    else
      var n := |pods| - 1;
      FeasiblePods(pods[..n]) + if Feasible(pods[n]) then [pods[n]] else []
  }

  /** An order the sort may leave the feasible pods in: scores descend, ties
      fall anyhow. */
  ghost predicate SortedOrder(t: Template, pods: seq<PodInfo>, order: seq<PodInfo>) {
    multiset(order) == multiset(FeasiblePods(pods)) && ByScore(t, order)
  }

  // ---------------------------------------------------------------- the report

  function EarlyPlaced(pods: seq<PodInfo>): map<string, Placement> {
    if pods == [] then map[]
    else
      var n := |pods| - 1;
      var m := EarlyPlaced(pods[..n]);
      if pods[n].unsupported.None? && !Feasible(pods[n]) then m[pods[n].name := ZeroRequest] else m
  }

  function EarlyInfeasible(pods: seq<PodInfo>): map<string, Reason> {
    if pods == [] then map[]
    else
      var n := |pods| - 1;
      var m := EarlyInfeasible(pods[..n]);
      if pods[n].unsupported.Some? then m[pods[n].name := UnsupportedConstraint(pods[n].unsupported.value)] else m
  }

  /** What the report says about an outcome. */
  function Verdict(names: seq<string>, o: Outcome): Result<Placement, Reason> {
    match o
    case Existing(i) => Ok(OnNode(if i < |names| then names[i] else ""))
    case Opened(j) => Ok(OnNewNode(j))
    case TooBig => Err(ExceedsTemplate)
    case Inadmissible => Err(TemplateConstraints)
  }

  function PlacedAfter(m: map<string, Placement>, names: seq<string>, ps: seq<PodInfo>,
                       os: seq<Outcome>): map<string, Placement>
    requires |ps| == |os|
  {
    if ps == [] then m
    else
      var n := |ps| - 1;
      var before := PlacedAfter(m, names, ps[..n], os[..n]);
      match Verdict(names, os[n])
      case Ok(place) => before[ps[n].name := place]
      case Err(_) => before
  }

  function InfeasibleAfter(m: map<string, Reason>, ps: seq<PodInfo>, os: seq<Outcome>): map<string, Reason>
    requires |ps| == |os|
  {
    if ps == [] then m
    else
      var n := |ps| - 1;
      var before := InfeasibleAfter(m, ps[..n], os[..n]);
      match Verdict([], os[n])
      case Ok(_) => before
      case Err(reason) => before[ps[n].name := reason]
  }

  function ReportOf(t: Template, nodes: seq<NodeInfo>, pods: seq<PodInfo>, order: seq<PodInfo>): Report {
    var r := Pack(t, Start(nodes), order);
    Report(Shortfall(t, r.bins.added), |r.bins.added|,
           PlacedAfter(EarlyPlaced(pods), NamesOf(UsableNodes(nodes)), order, r.outcomes),
           InfeasibleAfter(EarlyInfeasible(pods), order, r.outcomes))
  }

  lemma StartClean(nodes: seq<NodeInfo>)
    ensures Clean(Start(nodes))
  {
  }

  // ------------------------------------------------- what the two maps promise

  ghost predicate DistinctNames(pods: seq<PodInfo>) {
    forall i, j :: 0 <= i < j < |pods| ==> pods[i].name != pods[j].name
  }

  lemma {:induction false} FeasibleMembers(pods: seq<PodInfo>)
    ensures forall p :: p in FeasiblePods(pods) <==> p in pods && Feasible(p)
  {
    if pods == [] {
    } else {
      FeasibleMembers(pods[..|pods| - 1]);
      assert pods == pods[..|pods| - 1] + [pods[|pods| - 1]];
    }
  }

  lemma {:induction false} EarlyKeys(pods: seq<PodInfo>)
    ensures forall name :: name in EarlyPlaced(pods) <==>
              exists p :: p in pods && p.name == name && p.unsupported.None? && !Feasible(p)
    ensures forall name :: name in EarlyInfeasible(pods) <==>
              exists p :: p in pods && p.name == name && p.unsupported.Some?
  {
    if pods == [] {
    } else {
      var n := |pods| - 1;
      EarlyKeys(pods[..n]);
      assert pods == pods[..n] + [pods[n]];
    }
  }

  lemma {:induction false} FeasibleCount(pods: seq<PodInfo>, p: PodInfo)
    requires DistinctNames(pods)
    ensures multiset(FeasiblePods(pods))[p] <= 1
  {
    if pods == [] {
    } else {
      var n := |pods| - 1;
      FeasibleCount(pods[..n], p);
      FeasibleMembers(pods[..n]);
      if p == pods[n] {
        assert p !in pods[..n];
        assert p !in FeasiblePods(pods[..n]);
      }
    }
  }

  lemma OnceOnly<T>(xs: seq<T>, i: nat, j: nat)
    requires i < j < |xs| && xs[i] == xs[j]
    ensures multiset(xs)[xs[i]] >= 2
  {
    assert xs == xs[..j] + [xs[j]] + xs[j + 1..];
    assert xs[i] in xs[..j];
    assert multiset(xs[..j])[xs[i]] >= 1;
  }

  /** With distinct names the sorted pods have distinct names too, none of
      which was settled before the packing. */
  lemma OrderNames(t: Template, pods: seq<PodInfo>, order: seq<PodInfo>)
    requires DistinctNames(pods) && SortedOrder(t, pods, order)
    ensures DistinctNames(order)
    ensures forall p :: p in order <==> p in pods && Feasible(p)
    ensures forall p :: p in order ==> p.name !in EarlyPlaced(pods) && p.name !in EarlyInfeasible(pods)
  {
    FeasibleMembers(pods);
    EarlyKeys(pods);
    forall p
      ensures p in order <==> p in pods && Feasible(p)
    {
      assert p in multiset(order) <==> p in multiset(FeasiblePods(pods));
    }
    forall i, j | 0 <= i < j < |order|
      ensures order[i].name != order[j].name
    {
      assert order[i] in pods && order[j] in pods;
      if order[i] == order[j] {
        OnceOnly(order, i, j);
        FeasibleCount(pods, order[i]);
      }
    }
  }

  /** A name that no packed pod bears keeps its entries. */
  lemma {:induction false} OtherNames(m: map<string, Placement>, im: map<string, Reason>, names: seq<string>,
                                      ps: seq<PodInfo>, os: seq<Outcome>, name: string)
    requires |ps| == |os| && forall k :: 0 <= k < |ps| ==> ps[k].name != name
    ensures name in PlacedAfter(m, names, ps, os) <==> name in m
    ensures name in InfeasibleAfter(im, ps, os) <==> name in im
    ensures name in m ==> PlacedAfter(m, names, ps, os)[name] == m[name]
    ensures name in im ==> InfeasibleAfter(im, ps, os)[name] == im[name]
  {
    if ps == [] {
    } else {
      OtherNames(m, im, names, ps[..|ps| - 1], os[..|ps| - 1], name);
    }
  }

  lemma {:induction false} OwnEntry(m: map<string, Placement>, im: map<string, Reason>, names: seq<string>,
                                    ps: seq<PodInfo>, os: seq<Outcome>, k: nat)
    requires |ps| == |os| && DistinctNames(ps) && k < |ps|
    ensures Recorded(PlacedAfter(m, names, ps, os), InfeasibleAfter(im, ps, os), m, im, ps[k].name,
              Verdict(names, os[k]))
  {
    var n := |ps| - 1;
    assert Verdict(names, os[n]).Ok? == Verdict([], os[n]).Ok?;
    if k < n {
      OwnEntry(m, im, names, ps[..n], os[..n], k);
    } else {
      OtherNames(m, im, names, ps[..n], os[..n], ps[n].name);
    }
  }

  /** The entry of a name is its verdict, and it is in no other map unless it
      was there before. */
  ghost predicate Recorded(placed: map<string, Placement>, infeasible: map<string, Reason>,
                           m: map<string, Placement>, im: map<string, Reason>,
                           name: string, v: Result<Placement, Reason>) {
    match v
    case Ok(place) => name in placed && placed[name] == place && (name in infeasible <==> name in im)
    case Err(reason) => name in infeasible && infeasible[name] == reason && (name in placed <==> name in m)
  }

  /** With distinct names the report tells exactly what happened to every pod:
      its own entry, in exactly one of the two maps. */
  lemma ReportFaithful(t: Template, nodes: seq<NodeInfo>, pods: seq<PodInfo>, order: seq<PodInfo>)
    requires DistinctNames(pods) && SortedOrder(t, pods, order)
    ensures var r := ReportOf(t, nodes, pods, order);
            var os := Pack(t, Start(nodes), order).outcomes;
            && (forall k :: 0 <= k < |order| ==>
                  Recorded(r.placed, r.infeasible, map[], map[], order[k].name,
                           Verdict(NamesOf(UsableNodes(nodes)), os[k])))
            && (forall p :: p in pods ==> (p.name in r.placed <==> p.name !in r.infeasible))
            && (forall p :: p in pods && p.unsupported.Some? ==> p.name in r.infeasible)
            && (forall p :: p in pods && p.unsupported.None? && !Feasible(p) ==> p.name in r.placed)
  {
    var r := ReportOf(t, nodes, pods, order);
    var os := Pack(t, Start(nodes), order).outcomes;
    var names := NamesOf(UsableNodes(nodes));
    OrderNames(t, pods, order);
    EarlyKeys(pods);
    forall p | p in pods
      ensures p.name in r.placed <==> p.name !in r.infeasible
      ensures p.unsupported.Some? ==> p.name in r.infeasible
      ensures p.unsupported.None? && !Feasible(p) ==> p.name in r.placed
    {
      if Feasible(p) {
        var k :| 0 <= k < |order| && order[k] == p;
        OwnEntry(EarlyPlaced(pods), EarlyInfeasible(pods), names, order, os, k);
      } else {
        forall k | 0 <= k < |order|
          ensures order[k].name != p.name
        {
          assert order[k] in order;
        }
        OtherNames(EarlyPlaced(pods), EarlyInfeasible(pods), names, order, os, p.name);
        SettledOnce(pods, p);
      }
    }
    forall k | 0 <= k < |order|
      ensures Recorded(r.placed, r.infeasible, map[], map[], order[k].name, Verdict(names, os[k]))
    {
      assert order[k] in order;
      OwnEntry(EarlyPlaced(pods), EarlyInfeasible(pods), names, order, os, k);
    }
  }

  lemma SettledOnce(pods: seq<PodInfo>, p: PodInfo)
    requires DistinctNames(pods) && p in pods && !Feasible(p)
    ensures p.name in EarlyPlaced(pods) <==> p.unsupported.None?
    ensures p.name in EarlyInfeasible(pods) <==> p.unsupported.Some?
  {
    EarlyKeys(pods);
    assert forall q :: q in pods && q.name == p.name ==> q == p;
  }

  // ------------------------------------------------- estimating again afterwards

  /** A ready, empty node of the template's shape. */
  predicate FromTemplate(t: Template, n: NodeInfo) {
    && Usable(n) && n.usedCPU == 0 && n.usedMem == 0
    && n.allocCPU == t.cpu && n.allocMem == t.mem && n.labels == t.labels && n.taints == t.taints
  }

  lemma UsableSnoc(nodes: seq<NodeInfo>, n: NodeInfo)
    ensures UsableNodes(nodes + [n]) == UsableNodes(nodes) + if Usable(n) then [n] else []
  {
    assert (nodes + [n])[..|nodes|] == nodes;
  }

  lemma {:induction false} UsableConcat(nodes: seq<NodeInfo>, joined: seq<NodeInfo>)
    requires forall i :: 0 <= i < |joined| ==> Usable(joined[i])
    ensures UsableNodes(nodes + joined) == UsableNodes(nodes) + joined
  {
    if joined == [] {
      assert nodes + joined == nodes;
    } else {
      var n := |joined| - 1;
      UsableConcat(nodes, joined[..n]);
      UsableSnoc(nodes + joined[..n], joined[n]);
      assert joined == joined[..n] + [joined[n]];
      Reassociate(nodes, joined[..n], joined[n]);
      Reassociate(UsableNodes(nodes), joined[..n], joined[n]);
    }
  }

  lemma StartJoined(t: Template, nodes: seq<NodeInfo>, joined: seq<NodeInfo>)
    requires forall i :: 0 <= i < |joined| ==> FromTemplate(t, joined[i])
    ensures Start(nodes + joined) == Bins(Start(nodes).existing + Repeat(t.Empty(), |joined|), [])
  {
    UsableConcat(nodes, joined);
    BinsConcat(t, UsableNodes(nodes), joined);
  }

  lemma BinsConcat(t: Template, usable: seq<NodeInfo>, joined: seq<NodeInfo>)
    requires forall i :: 0 <= i < |joined| ==> FromTemplate(t, joined[i])
    ensures BinsFor(usable + joined) == BinsFor(usable) + Repeat(t.Empty(), |joined|)
  {
    var a, b := BinsFor(usable + joined), BinsFor(usable) + Repeat(t.Empty(), |joined|);
    forall i | 0 <= i < |a|
      ensures a[i] == b[i]
    {
      if i >= |usable| {
        assert FromTemplate(t, joined[i - |usable|]);
      }
    }
  }

  lemma {:induction false} SameInfeasible(im: map<string, Reason>, ps: seq<PodInfo>, os: seq<Outcome>, base: nat)
    requires |ps| == |os|
    ensures InfeasibleAfter(im, ps, AllMoved(os, base)) == InfeasibleAfter(im, ps, os)
  {
    if ps == [] {
    } else {
      var n := |ps| - 1;
      SameInfeasible(im, ps[..n], os[..n], base);
      assert AllMoved(os, base)[..n] == AllMoved(os[..n], base);
    }
  }

  /** No provisioning loop: when no pending pod fits the nodes there are, and
      the needed nodes have joined, the next estimate of the same pods asks
      for nothing and rejects the same ones. */
  lemma ReestimateConverges(t: Template, nodes: seq<NodeInfo>, joined: seq<NodeInfo>, pods: seq<PodInfo>,
                            order: seq<PodInfo>)
    requires forall i :: 0 <= i < |order| ==> FitsNone(order[i], Start(nodes).existing)
    requires |joined| == ReportOf(t, nodes, pods, order).nodesNeeded
    requires forall i :: 0 <= i < |joined| ==> FromTemplate(t, joined[i])
    ensures var r := ReportOf(t, nodes + joined, pods, order);
            && r.nodesNeeded == 0 && r.delta.IsZero()
            && r.infeasible == ReportOf(t, nodes, pods, order).infeasible
            && Pack(t, Start(nodes + joined), order).outcomes
               == AllMoved(Pack(t, Start(nodes), order).outcomes, |Start(nodes).existing|)
  {
    StartJoined(t, nodes, joined);
    Converges(t, Start(nodes), order, Start(nodes + joined));
    SameInfeasible(EarlyInfeasible(pods), order, Pack(t, Start(nodes), order).outcomes, |Start(nodes).existing|);
  }

  // ------------------------------------------------------------ figures reported

  /** The figures of a report: they do not depend on chance when nothing is
      needed, and a deficit comes with needed nodes and the other way round. */
  lemma ReportFigures(t: Template, nodes: seq<NodeInfo>, pods: seq<PodInfo>, order: seq<PodInfo>)
    requires t.cpu > 0 && t.mem > 0 && SortedOrder(t, pods, order)
    ensures var r := ReportOf(t, nodes, pods, order);
            && (r.delta.IsZero() <==> r.nodesNeeded == 0)
            && 0 <= r.delta.cpu <= r.nodesNeeded * t.cpu && 0 <= r.delta.mem <= r.nodesNeeded * t.mem
            && (r.nodesNeeded >= 2 ==>
                  r.nodesNeeded * (t.cpu * t.mem) < 2 * (r.delta.cpu * t.mem + r.delta.mem * t.cpu))
            && forall m: nat :: m >= 1 && r.delta.cpu <= m * t.cpu && r.delta.mem <= m * t.mem ==>
                  r.nodesNeeded <= 3 * m - 2
  {
    StartClean(nodes);
    FeasibleMembers(pods);
    forall i | 0 <= i < |order|
      ensures order[i].cpu > 0 || order[i].mem > 0
    {
      assert order[i] in multiset(order);
      assert order[i] in FeasiblePods(pods);
    }
    DeltaZeroIff(t, Start(nodes), order);
    DeltaBoundsNodes(t, Start(nodes), order);
  }

  // --------------------------------------------- the estimate in the nodes' fields

  /** The candidates are the ready, schedulable nodes, in their order. */
  lemma {:induction false} UsableAre(nodes: seq<NodeInfo>) returns (ks: seq<nat>)
    ensures Picks(nodes, ks, UsableNodes(nodes))
    ensures forall j: nat :: j in ks <==> j < |nodes| && nodes[j].ready && !nodes[j].unschedulable
  {
    if nodes == [] {
      ks := [];
    } else {
      var n := |nodes| - 1;
      var before := UsableAre(nodes[..n]);
      ks := PicksStep(nodes, before, UsableNodes(nodes[..n]), Usable(nodes[n]), UsableNodes(nodes));
    }
  }

  /** The pods to be packed are those without unsupported rules that ask for
      something, each as often as it is pending. */
  lemma {:induction false} FeasibleAre(pods: seq<PodInfo>, p: PodInfo)
    ensures multiset(FeasiblePods(pods))[p]
         == if p.unsupported.None? && (p.cpu > 0 || p.mem > 0) then multiset(pods)[p] else 0
  {
    if pods == [] {
    } else {
      var n := |pods| - 1;
      FeasibleAre(pods[..n], p);
      assert pods == pods[..n] + [pods[n]];
    }
  }

  /** One of the template shares that `a` asks for is as large as each of those
      that `b` asks for. */
  ghost predicate LargerShare(t: Template, a: PodInfo, b: PodInfo) {
    && (a.cpu * t.mem >= b.cpu * t.mem || a.mem * t.cpu >= b.cpu * t.mem)
    && (a.cpu * t.mem >= b.mem * t.cpu || a.mem * t.cpu >= b.mem * t.cpu)
  }

  /** What candidate `i`, the node `u`, is given fits beside what it uses
      already, its rules admit every pod it is given, and no pod that went
      elsewhere and that it admits would have fitted as well. */
  ghost predicate NodeRespected(u: NodeInfo, i: nat, order: seq<PodInfo>, os: seq<Outcome>)
    requires |order| == |os|
  {
    var cpu, mem := Tally(CpuOf, order, os, Existing(i)), Tally(MemOf, order, os, Existing(i));
    && (cpu > 0 ==> u.usedCPU + cpu <= u.allocCPU)
    && (mem > 0 ==> u.usedMem + mem <= u.allocMem)
    && (forall k :: 0 <= k < |order| && os[k] == Existing(i) ==> Admits(order[k], u.labels, u.taints))
    && forall k :: 0 <= k < |order| && !os[k].Existing? && Admits(order[k], u.labels, u.taints) ==>
         u.usedCPU + cpu + order[k].cpu > u.allocCPU || u.usedMem + mem + order[k].mem > u.allocMem
  }

  /** What new node `j` is given fits into the template, its rules admit it. */
  ghost predicate TemplateRespected(t: Template, j: nat, order: seq<PodInfo>, os: seq<Outcome>)
    requires |order| == |os|
  {
    && Tally(CpuOf, order, os, Opened(j)) <= t.cpu && Tally(MemOf, order, os, Opened(j)) <= t.mem
    && forall k :: 0 <= k < |order| && os[k] == Opened(j) ==> Admits(order[k], t.labels, t.taints)
  }

  /** Every pod has a candidate, a new node, or a reason that an empty template
      node would not do. */
  ghost predicate Settled(t: Template, candidates: nat, added: nat, p: PodInfo, o: Outcome) {
    match o
    case Existing(i) => i < candidates
    case Opened(j) => j < added
    case TooBig => p.cpu > t.cpu || p.mem > t.mem
    case Inadmissible => p.cpu <= t.cpu && p.mem <= t.mem && !Admits(p, t.labels, t.taints)
  }

  /** What is left of a candidate, told from the node's own figures. */
  lemma LeftOver(u: NodeInfo, left: Bin, cpu: int, mem: int, p: PodInfo)
    requires CandidateBin(u).cpu == left.cpu + cpu && left.cpu >= 0 && cpu >= 0
    requires CandidateBin(u).mem == left.mem + mem && left.mem >= 0 && mem >= 0
    ensures cpu > 0 ==> u.usedCPU + cpu <= u.allocCPU
    ensures mem > 0 ==> u.usedMem + mem <= u.allocMem
    ensures p.cpu > left.cpu ==> u.usedCPU + cpu + p.cpu > u.allocCPU
    ensures p.mem > left.mem ==> u.usedMem + mem + p.mem > u.allocMem
  {
  }

  lemma EveryNodeRespected(t: Template, nodes: seq<NodeInfo>, order: seq<PodInfo>, i: nat)
    requires i < |UsableNodes(nodes)|
    ensures NodeRespected(UsableNodes(nodes)[i], i, order, Pack(t, Start(nodes), order).outcomes)
  {
    var s0, u := Start(nodes), UsableNodes(nodes)[i];
    var r := Pack(t, s0, order);
    PackSound(t, s0, order);
    assert Accounts(s0.existing[i], r.bins.existing[i], order, r.outcomes, Existing(i));
    var cpu, mem := Tally(CpuOf, order, r.outcomes, Existing(i)), Tally(MemOf, order, r.outcomes, Existing(i));
    TallyNonNegative(CpuOf, order, r.outcomes, Existing(i));
    TallyNonNegative(MemOf, order, r.outcomes, Existing(i));
    if order != [] {
      LeftOver(u, r.bins.existing[i], cpu, mem, order[0]);
    }
    forall k | 0 <= k < |order| && r.outcomes[k] == Existing(i)
      ensures Admits(order[k], u.labels, u.taints)
    {
      assert Placed(t, s0, order[k], r, r.outcomes[k]);
    }
    forall k | 0 <= k < |order| && !r.outcomes[k].Existing? && Admits(order[k], u.labels, u.taints)
      ensures u.usedCPU + cpu + order[k].cpu > u.allocCPU || u.usedMem + mem + order[k].mem > u.allocMem
    {
      LocallyOptimal(t, s0, order, k);
      assert !Fits(order[k], r.bins.existing[i]);
      LeftOver(u, r.bins.existing[i], cpu, mem, order[k]);
    }
  }

  lemma EveryTemplateRespected(t: Template, nodes: seq<NodeInfo>, order: seq<PodInfo>, j: nat)
    requires j < |Pack(t, Start(nodes), order).bins.added|
    ensures TemplateRespected(t, j, order, Pack(t, Start(nodes), order).outcomes)
  {
    var s0 := Start(nodes);
    var r := Pack(t, s0, order);
    PackSound(t, s0, order);
    assert Accounts(t.Empty(), r.bins.added[j], order, r.outcomes, Opened(j));
    forall k | 0 <= k < |order| && r.outcomes[k] == Opened(j)
      ensures Admits(order[k], t.labels, t.taints)
    {
      assert Placed(t, s0, order[k], r, r.outcomes[k]);
    }
  }

  lemma EveryPodSettled(t: Template, nodes: seq<NodeInfo>, order: seq<PodInfo>, k: nat)
    requires k < |order|
    ensures var r := Pack(t, Start(nodes), order);
            Settled(t, |UsableNodes(nodes)|, |r.bins.added|, order[k], r.outcomes[k])
  {
    var r := Pack(t, Start(nodes), order);
    PackSound(t, Start(nodes), order);
    assert Placed(t, Start(nodes), order[k], r, r.outcomes[k]);
  }

  /** What a report says of a pod, in the two maps it is read from. */
  ghost predicate Told(r: Report, usable: seq<NodeInfo>, name: string, o: Outcome) {
    match o
    case Existing(i) =>
      i < |usable| && name !in r.infeasible && name in r.placed && r.placed[name] == OnNode(usable[i].name)
    case Opened(j) => name !in r.infeasible && name in r.placed && r.placed[name] == OnNewNode(j)
    case TooBig => name !in r.placed && name in r.infeasible && r.infeasible[name] == ExceedsTemplate
    case Inadmissible => name !in r.placed && name in r.infeasible && r.infeasible[name] == TemplateConstraints
  }

  lemma {:induction false} EarlyValues(pods: seq<PodInfo>, p: PodInfo)
    requires DistinctNames(pods) && p in pods && !Feasible(p)
    ensures p.unsupported.None? ==> p.name in EarlyPlaced(pods) && EarlyPlaced(pods)[p.name] == ZeroRequest
    ensures p.unsupported.Some? ==>
              && p.name in EarlyInfeasible(pods)
              && EarlyInfeasible(pods)[p.name] == UnsupportedConstraint(p.unsupported.value)
  {
    var n := |pods| - 1;
    if pods[n] != p {
      var i :| 0 <= i < |pods| && pods[i] == p;
      assert pods[..n][i] == p;
      EarlyValues(pods[..n], p);
      assert pods[i].name != pods[n].name;
    }
  }

  /** With distinct names the report tells of every pod what happened to it:
      where it was put, or that it asks for nothing, or why it was not put. */
  lemma ReportTells(t: Template, nodes: seq<NodeInfo>, pods: seq<PodInfo>, order: seq<PodInfo>)
    requires DistinctNames(pods) && SortedOrder(t, pods, order)
    ensures var r, os := ReportOf(t, nodes, pods, order), Pack(t, Start(nodes), order).outcomes;
            && (forall k :: 0 <= k < |order| ==> Told(r, UsableNodes(nodes), order[k].name, os[k]))
            && (forall p :: p in pods && p.unsupported.Some? ==>
                  && p.name !in r.placed && p.name in r.infeasible
                  && r.infeasible[p.name] == UnsupportedConstraint(p.unsupported.value))
            && (forall p :: p in pods && p.unsupported.None? && p.cpu == 0 && p.mem == 0 ==>
                  p.name !in r.infeasible && p.name in r.placed && r.placed[p.name] == ZeroRequest)
  {
    var r, os := ReportOf(t, nodes, pods, order), Pack(t, Start(nodes), order).outcomes;
    ReportFaithful(t, nodes, pods, order);
    OrderNames(t, pods, order);
    forall k | 0 <= k < |order|
      ensures Told(r, UsableNodes(nodes), order[k].name, os[k])
    {
      EveryPodSettled(t, nodes, order, k);
      assert Recorded(r.placed, r.infeasible, map[], map[], order[k].name,
                      Verdict(NamesOf(UsableNodes(nodes)), os[k]));
    }
    forall p | p in pods && !Feasible(p)
      ensures p.unsupported.None? ==> p.name in r.placed && r.placed[p.name] == ZeroRequest
      ensures p.unsupported.Some? ==>
                p.name in r.infeasible && r.infeasible[p.name] == UnsupportedConstraint(p.unsupported.value)
    {
      EarlyValues(pods, p);
      forall k | 0 <= k < |order|
        ensures order[k].name != p.name
      {
        assert order[k] in order;
      }
      OtherNames(EarlyPlaced(pods), EarlyInfeasible(pods), NamesOf(UsableNodes(nodes)), order, os, p.name);
    }
  }

  /** With a cache that agrees with the pods, what is scheduled on a node and
      what the estimate adds to it stay within what is allocatable. */
  lemma ScheduledAndPlacedFit(ops: seq<Op>, t: Template, order: seq<PodInfo>, i: nat)
    requires Replay(EMPTY, ops).scheduled != [] && i < |UsableNodes(Replay(EMPTY, ops).nodes)|
    ensures var v := Replay(EMPTY, ops);
            var u, os := UsableNodes(v.nodes)[i], Pack(t, Start(v.nodes), order).outcomes;
            var cpu, mem := Tally(CpuOf, order, os, Existing(i)), Tally(MemOf, order, os, Existing(i));
            && (cpu > 0 ==> Usage(CpuOf, v.scheduled, u.name) + cpu <= u.allocCPU)
            && (mem > 0 ==> Usage(MemOf, v.scheduled, u.name) + mem <= u.allocMem)
  {
    var v := Replay(EMPTY, ops);
    UsageAgrees(EMPTY, ops);
    EveryNodeRespected(t, v.nodes, order, i);
    var ks := UsableAre(v.nodes);
    assert v.nodes[ks[i]] == UsableNodes(v.nodes)[i];
  }
}
