/** The estimator as it runs: bins are shared objects whose free capacity is
    written in place while the pods are packed one by one. */
module Estimator {
  import opened Wrappers
  import opened Cluster
  import opened Sums
  import opened Packing
  import opened PackingBounds
  import opened Decreasing
  import opened Estimation
  import opened Filters
  import CS = ClusterState

  /** Free capacity of an existing node, or of a simulated new one. */
  class SimulatedNode {
    const place: Placement
    var freeCPU: int
    var freeMem: int
    const labels: Labels
    const taints: seq<Taint>

    function View(): Bin
      reads this
    {
      Bin(freeCPU, freeMem, labels, taints)
    }

    constructor (place: Placement, freeCPU: int, freeMem: int, labels: Labels, taints: seq<Taint>)
      ensures this.place == place && View() == Bin(freeCPU, freeMem, labels, taints)
    {
      this.place, this.freeCPU, this.freeMem, this.labels, this.taints := place, freeCPU, freeMem, labels, taints;
    }

    method Take(p: PodInfo)
      modifies this
      ensures View() == Shrink(old(View()), p)
    {
      freeCPU := freeCPU - p.cpu;
      freeMem := freeMem - p.mem;
    }
  }

  /** The objects hold exactly these bins. */
  ghost predicate Reflects(nodes: seq<SimulatedNode>, bins: seq<Bin>)
    reads nodes
  {
    |nodes| == |bins| && forall i :: 0 <= i < |nodes| ==> nodes[i].View() == bins[i]
  }

  /** The best fitting node, searched with a running minimum that starts at -1. */
  method BestFitNode(p: PodInfo, nodes: seq<SimulatedNode>, ghost bins: seq<Bin>) returns (best: SimulatedNode?)
    requires Reflects(nodes, bins)
    requires forall i :: 0 <= i < |bins| ==> bins[i].labels == nodes[i].labels && bins[i].taints == nodes[i].taints
    ensures best == null <==> BestFit(p, bins).None?
    ensures best != null ==> best == nodes[BestFit(p, bins).value]
  {
    best := null;
    var bestRemaining := -1;
    for i := 0 to |nodes|
      invariant best == null <==> BestUpTo(p, bins, i).None?
      invariant best == null <==> bestRemaining == -1
      invariant best != null ==>
                  best == nodes[BestUpTo(p, bins, i).value]
                  && bestRemaining == Remaining(p, bins[BestUpTo(p, bins, i).value]) >= 0
    {
      assert nodes[i].View() == bins[i];
      var node := nodes[i];
      var admitted := CanPodFitConstraints(p, node.labels, node.taints);
      if !admitted {
        continue;
      }
      if node.freeCPU >= p.cpu && node.freeMem >= p.mem {
        var rem := node.freeCPU - p.cpu + (node.freeMem - p.mem) / MIB;
        if bestRemaining == -1 || rem < bestRemaining {
          bestRemaining := rem;
          best := node;
        }
      }
    }
  }

  ghost predicate AllDistinct(a: seq<SimulatedNode>, b: seq<SimulatedNode>) {
    && (forall i, j :: 0 <= i < j < |a| ==> a[i] != a[j])
    && (forall i, j :: 0 <= i < j < |b| ==> b[i] != b[j])
    && (forall i, j :: 0 <= i < |a| && 0 <= j < |b| ==> a[i] != b[j])
  }

  /** Each object is named after its position. */
  ghost predicate Labelled(nodes: seq<SimulatedNode>, places: seq<Placement>) {
    |nodes| == |places| && forall i :: 0 <= i < |nodes| ==> nodes[i].place == places[i]
  }

  function NewPlaces(n: nat): (places: seq<Placement>)
    ensures |places| == n && forall i :: 0 <= i < n ==> places[i] == OnNewNode(i)
  {
    seq(n, i requires 0 <= i < n => OnNewNode(i))
  }

  function NodePlaces(names: seq<string>): (places: seq<Placement>)
    ensures |places| == |names| && forall i :: 0 <= i < |names| ==> places[i] == OnNode(names[i])
  {
    seq(|names|, i requires 0 <= i < |names| => OnNode(names[i]))
  }

  /** The objects stand for a packing state. */
  ghost predicate Represents(candidates: seq<SimulatedNode>, added: seq<SimulatedNode>, names: seq<string>, s: Bins)
    reads candidates, added
  {
    && AllDistinct(candidates, added)
    && Labelled(candidates, NodePlaces(names)) && Labelled(added, NewPlaces(|added|))
    && Reflects(candidates, s.existing) && Reflects(added, s.added)
  }

  /** Puts the pod into the best fitting of some nodes, if one fits. */
  method PlaceInBest(p: PodInfo, nodes: seq<SimulatedNode>, ghost bins: seq<Bin>) returns (best: SimulatedNode?)
    requires Reflects(nodes, bins)
    requires forall i, j :: 0 <= i < j < |nodes| ==> nodes[i] != nodes[j]
    modifies nodes
    ensures best == null <==> BestFit(p, bins).None?
    ensures best == null ==> Reflects(nodes, bins)
    ensures best != null ==>
              var i := BestFit(p, bins).value;
              best == nodes[i] && Reflects(nodes, bins[i := Shrink(bins[i], p)])
  {
    assert forall i :: 0 <= i < |bins| ==> bins[i] == nodes[i].View();
    best := BestFitNode(p, nodes, bins);
    if best != null {
      best.Take(p);
    }
  }

  /** Nodes are only ever appended. */
  ghost predicate Extends(added: seq<SimulatedNode>, added': seq<SimulatedNode>) {
    |added| <= |added'| && forall k :: 0 <= k < |added| ==> added'[k] == added[k]
  }

  /** Opens a template node for the pod. */
  method OpenNode(t: Template, p: PodInfo, candidates: seq<SimulatedNode>, added: seq<SimulatedNode>,
                  ghost names: seq<string>, ghost s: Bins)
    returns (added': seq<SimulatedNode>)
    requires Represents(candidates, added, names, s)
    ensures Represents(candidates, added', names, s.(added := s.added + [Shrink(t.Empty(), p)]))
    ensures Extends(added, added')
    ensures forall k :: |added| <= k < |added'| ==> fresh(added'[k])
  {
    var node := new SimulatedNode(OnNewNode(|added|), t.cpu - p.cpu, t.mem - p.mem, t.labels, t.taints);
    added' := added + [node];
  }

  /** Packs one pod: existing nodes first, then opened ones, then a new one. */
  method PlacePod(t: Template, p: PodInfo, candidates: seq<SimulatedNode>, added: seq<SimulatedNode>,
                  ghost names: seq<string>, ghost s: Bins)
    returns (verdict: Result<Placement, Reason>, added': seq<SimulatedNode>, usedExisting: bool)
    requires Represents(candidates, added, names, s)
    modifies candidates, added
    ensures Represents(candidates, added', names, Apply(t, s, p, Choose(t, s, p)))
    ensures Extends(added, added')
    ensures forall k :: |added| <= k < |added'| ==> fresh(added'[k])
    ensures verdict == Verdict(names, Choose(t, s, p))
    ensures usedExisting <==> Choose(t, s, p).Existing?
  {
    added', usedExisting := added, false;
    var best := PlaceInBest(p, candidates, s.existing);
    if best != null {
      verdict, usedExisting := Ok(best.place), true;
      return;
    }
    verdict, added' := PlaceOnTemplate(t, p, candidates, added, names, s);
  }

  /** No existing node fits: an opened one, or a new one, or none. */
  method PlaceOnTemplate(t: Template, p: PodInfo, candidates: seq<SimulatedNode>, added: seq<SimulatedNode>,
                         ghost names: seq<string>, ghost s: Bins)
    returns (verdict: Result<Placement, Reason>, added': seq<SimulatedNode>)
    requires Represents(candidates, added, names, s) && BestFit(p, s.existing).None?
    modifies added
    ensures Represents(candidates, added', names, Apply(t, s, p, Choose(t, s, p)))
    ensures Extends(added, added')
    ensures forall k :: |added| <= k < |added'| ==> fresh(added'[k])
    ensures verdict == Verdict(names, Choose(t, s, p))
  {
    added' := added;
    var best := PlaceInBest(p, added, s.added);
    if best != null {
      verdict := Ok(best.place);
      return;
    }
    if p.cpu > t.cpu || p.mem > t.mem {
      verdict := Err(ExceedsTemplate);
      return;
    }
    var admitted := CanPodFitConstraints(p, t.labels, t.taints);
    if !admitted {
      verdict := Err(TemplateConstraints);
      return;
    }
    added' := OpenNode(t, p, candidates, added, names, s);
    verdict := Ok(OnNewNode(|added|));
  }

  /** The bin of one existing node: its allocatable capacity less what is
      used, never below zero. */
  method Candidate(n: NodeInfo) returns (node: SimulatedNode)
    ensures fresh(node) && node.place == OnNode(n.name) && node.View() == CandidateBin(n)
  {
    var freeCPU := n.allocCPU - n.usedCPU;
    if freeCPU < 0 {
      freeCPU := 0;
    }
    var freeMem := n.allocMem - n.usedMem;
    if freeMem < 0 {
      freeMem := 0;
    }
    node := new SimulatedNode(OnNode(n.name), freeCPU, freeMem, n.labels, n.taints);
  }

  /** The objects stand for some existing nodes. */
  ghost predicate StandsFor(candidates: seq<SimulatedNode>, usable: seq<NodeInfo>)
    reads candidates
  {
    && |candidates| == |usable|
    && (forall i, j :: 0 <= i < j < |candidates| ==> candidates[i] != candidates[j])
    && forall i :: 0 <= i < |candidates| ==>
         candidates[i].place == OnNode(usable[i].name) && candidates[i].View() == CandidateBin(usable[i])
  }

  /** Adds the candidate for a node, unless it is unready or cordoned. */
  method AddCandidate(candidates: seq<SimulatedNode>, ghost usable: seq<NodeInfo>, n: NodeInfo)
    returns (more: seq<SimulatedNode>)
    requires StandsFor(candidates, usable)
    ensures StandsFor(more, usable + if Usable(n) then [n] else [])
    ensures Extends(candidates, more) && forall k :: |candidates| <= k < |more| ==> fresh(more[k])
  {
    more := candidates;
    if !n.ready || n.unschedulable {
      return;
    }
    var node := Candidate(n);
    more := candidates + [node];
  }

  /** The candidate bins: one per ready, schedulable node. */
  method GatherCandidates(nodes: seq<NodeInfo>) returns (candidates: seq<SimulatedNode>)
    ensures Represents(candidates, [], NamesOf(UsableNodes(nodes)), Start(nodes))
    ensures forall k :: 0 <= k < |candidates| ==> fresh(candidates[k])
  {
    candidates := [];
    for i := 0 to |nodes|
      invariant StandsFor(candidates, UsableNodes(nodes[..i]))
      invariant forall k :: 0 <= k < |candidates| ==> fresh(candidates[k])
    {
      candidates := AddCandidate(candidates, UsableNodes(nodes[..i]), nodes[i]);
      UsableSnoc(nodes[..i], nodes[i]);
      assert nodes[..i + 1] == nodes[..i] + [nodes[i]];
    }
    assert nodes[..|nodes|] == nodes;
    StandsForStart(candidates, nodes);
  }

  lemma StandsForStart(candidates: seq<SimulatedNode>, nodes: seq<NodeInfo>)
    requires StandsFor(candidates, UsableNodes(nodes))
    ensures Represents(candidates, [], NamesOf(UsableNodes(nodes)), Start(nodes))
  {
  }

  /** Settles the pods that need no packing and collects the others. */
  method Categorize(pods: seq<PodInfo>)
    returns (feasible: seq<PodInfo>, placed: map<string, Placement>, infeasible: map<string, Reason>)
    ensures feasible == FeasiblePods(pods) && placed == EarlyPlaced(pods) && infeasible == EarlyInfeasible(pods)
  {
    feasible, placed, infeasible := [], map[], map[];
    for i := 0 to |pods|
      invariant feasible == FeasiblePods(pods[..i])
      invariant placed == EarlyPlaced(pods[..i]) && infeasible == EarlyInfeasible(pods[..i])
    {
      assert pods[..i + 1][..i] == pods[..i];
      var p := pods[i];
      if p.unsupported.Some? {
        infeasible := infeasible[p.name := UnsupportedConstraint(p.unsupported.value)];
        continue;
      }
      if p.cpu == 0 && p.mem == 0 {
        placed := placed[p.name := ZeroRequest];
        continue;
      }
      feasible := feasible + [p];
    }
    assert pods[..|pods|] == pods;
  }

  /** Stands in for the library sort: some order of descending score. */
  method SortByScore(t: Template, pods: seq<PodInfo>) returns (order: seq<PodInfo>)
    ensures multiset(order) == multiset(pods) && ByScore(t, order)
  {
    var key := (p: PodInfo) => Score(t, p);
    order := [];
    for i := 0 to |pods|
      invariant multiset(order) == multiset(pods[..i]) && Descending(key, order)
    {
      assert pods[..i + 1] == pods[..i] + [pods[i]];
      order := InsertByKey(key, order, pods[i]);
    }
    assert pods[..|pods|] == pods;
    forall i, j | 0 <= i < j < |order|
      ensures Score(t, order[i]) >= Score(t, order[j])
    {
      assert key(order[i]) >= key(order[j]);
    }
  }

  method InsertByKey(key: PodInfo -> int, order: seq<PodInfo>, p: PodInfo) returns (order': seq<PodInfo>)
    requires Descending(key, order)
    ensures multiset(order') == multiset(order) + multiset{p} && Descending(key, order')
  {
    var at := 0;
    while at < |order| && key(order[at]) >= key(p)
      invariant at <= |order|
      invariant forall i :: 0 <= i < at ==> key(order[i]) >= key(p)
    {
      at := at + 1;
    }
    order' := order[..at] + [p] + order[at..];
    InsertedMultiset(order, at, p);
    InsertedDescending(key, order, at, p);
  }

  lemma InsertedMultiset(order: seq<PodInfo>, at: nat, p: PodInfo)
    requires at <= |order|
    ensures multiset(order[..at] + [p] + order[at..]) == multiset(order) + multiset{p}
  {
    assert order == order[..at] + order[at..];
  }

  lemma InsertedDescending(key: PodInfo -> int, order: seq<PodInfo>, at: nat, p: PodInfo)
    requires Descending(key, order) && at <= |order|
    requires at > 0 ==> key(order[at - 1]) >= key(p)
    requires at < |order| ==> key(order[at]) <= key(p)
    ensures Descending(key, order[..at] + [p] + order[at..])
  {
    var all := order[..at] + [p] + order[at..];
    forall i, j | 0 <= i < j < |all|
      ensures key(all[i]) >= key(all[j])
    {
      var a := if i < at then i else if i == at then at else i - 1;
      assert i != at ==> all[i] == order[a];
      var b := if j < at then j else if j == at then at else j - 1;
      assert j != at ==> all[j] == order[b];
    }
  }

  /** What has been written down about the pods packed so far. */
  datatype Records = Records(placed: map<string, Placement>, infeasible: map<string, Reason>, consumed: ResourceDelta)

  ghost function RecordsOf(start: Records, names: seq<string>, ps: seq<PodInfo>, os: seq<Outcome>): Records
    requires |ps| == |os|
  {
    Records(PlacedAfter(start.placed, names, ps, os),
            InfeasibleAfter(start.infeasible, ps, os),
            ResourceDelta(start.consumed.cpu + Sum(CpuOf, Select(ps, os, OnExisting)),
                          start.consumed.mem + Sum(MemOf, Select(ps, os, OnExisting))))
  }

  function Record(rec: Records, p: PodInfo, verdict: Result<Placement, Reason>, usedExisting: bool): Records {
    var consumed :=
      if usedExisting then ResourceDelta(rec.consumed.cpu + p.cpu, rec.consumed.mem + p.mem) else rec.consumed;
    match verdict
    case Ok(place) => rec.(placed := rec.placed[p.name := place], consumed := consumed)
    case Err(reason) => rec.(infeasible := rec.infeasible[p.name := reason])
  }

  /** One pod more adds one record. */
  lemma RecordsSnoc(start: Records, names: seq<string>, ps: seq<PodInfo>, front: seq<PodInfo>, os: seq<Outcome>,
                    o: Outcome)
    requires |ps| == |os| + 1 && front == ps[..|os|]
    ensures RecordsOf(start, names, ps, os + [o])
         == Record(RecordsOf(start, names, front, os), ps[|os|], Verdict(names, o), o.Existing?)
  {
    var p := ps[|os|];
    assert (os + [o])[..|os|] == os;
    assert Verdict(names, o).Ok? == Verdict([], o).Ok?;
    if o.Existing? {
      SumSnoc(CpuOf, Select(front, os, OnExisting), p);
      SumSnoc(MemOf, Select(front, os, OnExisting), p);
      assert Select(ps, os + [o], OnExisting) == Select(front, os, OnExisting) + [p];
    } else {
      assert Select(ps, os + [o], OnExisting) == Select(front, os, OnExisting);
    }
  }

  /** The run and the records after a prefix of the pods, whose bins the
      objects hold. */
  ghost predicate Packed(t: Template, s0: Bins, start: Records, names: seq<string>, ps: seq<PodInfo>,
                         candidates: seq<SimulatedNode>, added: seq<SimulatedNode>, rec: Records)
    reads candidates, added
  {
    var r := Pack(t, s0, ps);
    Represents(candidates, added, names, r.bins) && rec == RecordsOf(start, names, ps, r.outcomes)
  }

  lemma PackedSnoc(t: Template, s0: Bins, start: Records, names: seq<string>, ps: seq<PodInfo>, q: Run,
                   candidates: seq<SimulatedNode>, added: seq<SimulatedNode>, rec: Records)
    requires |ps| > 0 && q == Pack(t, s0, ps[..|ps| - 1])
    requires var p := ps[|ps| - 1];
             var o := Choose(t, q.bins, p);
             && Represents(candidates, added, names, Apply(t, q.bins, p, o))
             && rec == Record(RecordsOf(start, names, ps[..|ps| - 1], q.outcomes), p, Verdict(names, o), o.Existing?)
    ensures Packed(t, s0, start, names, ps, candidates, added, rec)
  {
    PackUnfold(t, s0, ps, ps[..|ps| - 1]);
    RecordsSnoc(start, names, ps, ps[..|ps| - 1], q.outcomes, Choose(t, q.bins, ps[|ps| - 1]));
  }

  /** Packs the sorted pods, recording where each one went. */
  method PackInOrder(t: Template, order: seq<PodInfo>, candidates: seq<SimulatedNode>, start: Records,
                     ghost names: seq<string>, ghost s0: Bins)
    returns (added: seq<SimulatedNode>, rec: Records)
    requires Represents(candidates, [], names, s0) && s0.added == []
    modifies candidates
    ensures Packed(t, s0, start, names, order, candidates, added, rec)
  {
    added, rec := [], start;
    assert order[..0] == [];
    for i := 0 to |order|
      invariant Packed(t, s0, start, names, order[..i], candidates, added, rec)
      invariant forall k :: 0 <= k < |added| ==> fresh(added[k])
    {
      added, rec := PackAt(t, order, i, candidates, added, start, rec, names, s0);
    }
    assert order[..|order|] == order;
  }

  /** Packs the next of the sorted pods. */
  method PackAt(t: Template, order: seq<PodInfo>, i: nat, candidates: seq<SimulatedNode>, added: seq<SimulatedNode>,
                ghost start: Records, rec: Records, ghost names: seq<string>, ghost s0: Bins)
    returns (added': seq<SimulatedNode>, rec': Records)
    requires i < |order| && Packed(t, s0, start, names, order[..i], candidates, added, rec)
    modifies candidates, added
    ensures Packed(t, s0, start, names, order[..i + 1], candidates, added', rec')
    ensures Extends(added, added') && forall k :: |added| <= k < |added'| ==> fresh(added'[k])
  {
    ghost var r := Pack(t, s0, order[..i]);
    assert order[..i + 1][..i] == order[..i];
    added', rec' := PackNext(t, order[i], candidates, added, rec, names, r.bins);
    PackedSnoc(t, s0, start, names, order[..i + 1], r, candidates, added', rec');
  }

  method PackNext(t: Template, p: PodInfo, candidates: seq<SimulatedNode>, added: seq<SimulatedNode>, rec: Records,
                  ghost names: seq<string>, ghost s: Bins)
    returns (added': seq<SimulatedNode>, rec': Records)
    requires Represents(candidates, added, names, s)
    modifies candidates, added
    ensures Extends(added, added')
    ensures forall k :: |added| <= k < |added'| ==> fresh(added'[k])
    ensures Represents(candidates, added', names, Apply(t, s, p, Choose(t, s, p)))
    ensures rec' == Record(rec, p, Verdict(names, Choose(t, s, p)), Choose(t, s, p).Existing?)
  {
    var verdict, usedExisting;
    verdict, added', usedExisting := PlacePod(t, p, candidates, added, names, s);
    rec' := Record(rec, p, verdict, usedExisting);
  }

  /** The remaining deficit: what has been taken from the opened nodes. */
  method RemainingDeficit(t: Template, added: seq<SimulatedNode>, ghost bins: seq<Bin>) returns (delta: ResourceDelta)
    requires Reflects(added, bins)
    ensures delta == Shortfall(t, bins)
  {
    var cpuShortfall, memShortfall := 0, 0;
    for i := 0 to |added|
      invariant ResourceDelta(cpuShortfall, memShortfall) == Shortfall(t, bins[..i])
    {
      assert bins[..i + 1][..i] == bins[..i];
      assert added[i].View() == bins[i];
      cpuShortfall := cpuShortfall + (t.cpu - added[i].freeCPU);
      memShortfall := memShortfall + (t.mem - added[i].freeMem);
    }
    assert bins[..|bins|] == bins;
    delta := ResourceDelta(cpuShortfall, memShortfall);
  }

  /** The whole estimate. Without a state there are no candidates. The report
      is the one of some sorted order, and the capacity consumed on existing
      nodes closes the balance: it, the deficit and the rejected requests add
      up to what was asked for. */
  method EstimateDetailed(t: Template, state: CS.ClusterState?, unschedulable: seq<PodInfo>)
    returns (report: Report, consumed: ResourceDelta, order: seq<PodInfo>, ghost ks: seq<nat>, ghost os: seq<Outcome>)
    // the pods packed, and their order
    ensures SortedOrder(t, unschedulable, order)
    ensures forall p :: multiset(order)[p]
                     == if p.unsupported.None? && (p.cpu > 0 || p.mem > 0) then multiset(unschedulable)[p] else 0
    ensures forall i, j :: 0 <= i < j < |order| ==> LargerShare(t, order[i], order[j])
    // the candidate nodes, and what each of them and each new node is given
    ensures var nodes := if state == null then [] else state.nodes;
            && Picks(nodes, ks, UsableNodes(nodes))
            && (forall j: nat :: j in ks <==> j < |nodes| && nodes[j].ready && !nodes[j].unschedulable)
            && |os| == |order|
            && (forall i :: 0 <= i < |ks| ==> NodeRespected(nodes[ks[i]], i, order, os))
            && (forall j: nat :: j < report.nodesNeeded ==> TemplateRespected(t, j, order, os))
            && forall k :: 0 <= k < |order| ==> Settled(t, |ks|, report.nodesNeeded, order[k], os[k])
    // the report
    ensures var nodes := if state == null then [] else state.nodes;
            DistinctNames(unschedulable) ==>
              forall k :: 0 <= k < |order| ==> Told(report, UsableNodes(nodes), order[k].name, os[k])
    ensures var nodes := if state == null then [] else state.nodes;
            && os == Pack(t, Start(nodes), order).outcomes
            && report == ReportOf(t, nodes, unschedulable, order)
            && Sum(CpuOf, FeasiblePods(unschedulable))
               == consumed.cpu + report.delta.cpu + Sum(CpuOf, Select(order, os, Rejected))
            && Sum(MemOf, FeasiblePods(unschedulable))
               == consumed.mem + report.delta.mem + Sum(MemOf, Select(order, os, Rejected))
  {
    if |unschedulable| == 0 {
      report, consumed, order := Report(ResourceDelta(0, 0), 0, map[], map[]), ResourceDelta(0, 0), [];
      os := [];
      ks := UsableAre(if state == null then [] else state.nodes);
      EstimateInFields(t, if state == null then [] else state.nodes, unschedulable, order, ks);
      return;
    }
    var nodes: seq<NodeInfo> := [];
    if state != null {
      nodes := state.GetNodes();
    }
    var candidates := GatherCandidates(nodes);
    var feasible, placed0, infeasible0 := Categorize(unschedulable);
    var sorted := SortByScore(t, feasible);
    ghost var s0 := Start(nodes);
    var added, rec := PackInOrder(t, sorted, candidates, Records(placed0, infeasible0, ResourceDelta(0, 0)),
                                  NamesOf(UsableNodes(nodes)), s0);
    var delta := RemainingDeficit(t, added, Pack(t, s0, sorted).bins.added);
    report, consumed, order := Report(delta, |added|, rec.placed, rec.infeasible), rec.consumed, sorted;
    StartClean(nodes);
    DemandConserved(t, s0, sorted);
    SumPermuted(CpuOf, sorted, feasible);
    SumPermuted(MemOf, sorted, feasible);
    os := Pack(t, s0, sorted).outcomes;
    ks := UsableAre(nodes);
    EstimateInFields(t, nodes, unschedulable, sorted, ks);
  }

  /** What an estimate promises, said in the fields of the nodes and the pods. */
  lemma EstimateInFields(t: Template, nodes: seq<NodeInfo>, pods: seq<PodInfo>, order: seq<PodInfo>, ks: seq<nat>)
    requires SortedOrder(t, pods, order) && Picks(nodes, ks, UsableNodes(nodes))
    ensures forall p :: multiset(order)[p]
                     == if p.unsupported.None? && (p.cpu > 0 || p.mem > 0) then multiset(pods)[p] else 0
    ensures forall i, j :: 0 <= i < j < |order| ==> LargerShare(t, order[i], order[j])
    ensures var r, os := ReportOf(t, nodes, pods, order), Pack(t, Start(nodes), order).outcomes;
            && (forall i :: 0 <= i < |ks| ==> NodeRespected(nodes[ks[i]], i, order, os))
            && (forall j: nat :: j < r.nodesNeeded ==> TemplateRespected(t, j, order, os))
            && (forall k :: 0 <= k < |order| ==> Settled(t, |ks|, r.nodesNeeded, order[k], os[k]))
            && (DistinctNames(pods) ==>
                  forall k :: 0 <= k < |order| ==> Told(r, UsableNodes(nodes), order[k].name, os[k]))
  {
    forall p: PodInfo {
      FeasibleAre(pods, p);
    }
    forall i, j | 0 <= i < j < |order|
      ensures LargerShare(t, order[i], order[j])
    {
      assert Score(t, order[i]) >= Score(t, order[j]);
    }
    forall i | 0 <= i < |ks|
      ensures NodeRespected(nodes[ks[i]], i, order, Pack(t, Start(nodes), order).outcomes)
    {
      EveryNodeRespected(t, nodes, order, i);
    }
    forall j: nat | j < ReportOf(t, nodes, pods, order).nodesNeeded {
      EveryTemplateRespected(t, nodes, order, j);
    }
    forall k | 0 <= k < |order| {
      EveryPodSettled(t, nodes, order, k);
    }
    if DistinctNames(pods) {
      ReportTells(t, nodes, pods, order);
    }
  }
}
