/** The cached view of the cluster as a value, what each writer makes of it,
    and what every sequence of writers keeps. */
module ClusterView {
  import opened Cluster
  import opened Filters
  import opened Sums

  datatype View = View(pending: seq<PodInfo>, scheduled: seq<PodInfo>, nodes: seq<NodeInfo>)

  const EMPTY := View([], [], [])

  function NodeNames(pods: seq<PodInfo>): (names: seq<string>)
    ensures |names| == |pods| && forall i :: 0 <= i < |pods| ==> names[i] == pods[i].nodeName
  {
    seq(|pods|, i requires 0 <= i < |pods| => pods[i].nodeName)
  }

  /** The requests of the pods bound to node `name`; the empty name binds nothing. */
  function Usage(w: PodInfo -> int, pods: seq<PodInfo>, name: string): int {
    if name == "" then 0 else Tally(w, pods, NodeNames(pods), name)
  }

  lemma UsageSnoc(pods: seq<PodInfo>, p: PodInfo, name: string)
    ensures Usage(CpuOf, pods + [p], name)
         == Usage(CpuOf, pods, name) + if name == p.nodeName && name != "" then p.cpu else 0
    ensures Usage(MemOf, pods + [p], name)
         == Usage(MemOf, pods, name) + if name == p.nodeName && name != "" then p.mem else 0
  {
    assert (pods + [p])[..|pods|] == pods;
    assert NodeNames(pods + [p])[..|pods|] == NodeNames(pods);
  }

  function WithUsage(n: NodeInfo, pods: seq<PodInfo>): NodeInfo {
    n.(usedCPU := Usage(CpuOf, pods, n.name), usedMem := Usage(MemOf, pods, n.name))
  }

  function AllWithUsage(nodes: seq<NodeInfo>, pods: seq<PodInfo>): (r: seq<NodeInfo>)
    ensures |r| == |nodes| && forall i :: 0 <= i < |nodes| ==> r[i] == WithUsage(nodes[i], pods)
  {
    seq(|nodes|, i requires 0 <= i < |nodes| => WithUsage(nodes[i], pods))
  }

  /** Nothing is recomputed while no pod is scheduled. */
  function Recompute(v: View): View {
    if v.scheduled == [] then v else v.(nodes := AllWithUsage(v.nodes, v.scheduled))
  }

  /** The first node of that name, or the number of nodes. */
  function Find(nodes: seq<NodeInfo>, name: string): (i: nat)
    ensures i <= |nodes|
    ensures forall j :: 0 <= j < i ==> nodes[j].name != name
    ensures i < |nodes| ==> nodes[i].name == name
  {
    if nodes == [] then 0
    else if nodes[0].name == name then 0
    else
      var i := Find(nodes[1..], name);
      assert forall j :: 1 <= j < i + 1 ==> nodes[j] == nodes[1..][j - 1];
      i + 1
  }

  /** An update that brings no usage of its own keeps the cached one. */
  function KeepUsage(node: NodeInfo, cached: NodeInfo): NodeInfo {
    node.(usedCPU := if node.usedCPU == 0 then cached.usedCPU else node.usedCPU,
          usedMem := if node.usedMem == 0 then cached.usedMem else node.usedMem)
  }

  function Put(nodes: seq<NodeInfo>, node: NodeInfo): seq<NodeInfo> {
    var i := Find(nodes, node.name);
    if i < |nodes| then nodes[i := KeepUsage(node, nodes[i])] else nodes + [node]
  }

  /** All fields but the cached usage are the same. */
  predicate SameButUsage(a: NodeInfo, b: NodeInfo) {
    a.(usedCPU := 0, usedMem := 0) == b.(usedCPU := 0, usedMem := 0)
  }

  /** `i` is the first node of some name. */
  ghost predicate FirstNamed(nodes: seq<NodeInfo>, name: string, i: nat) {
    i < |nodes| && nodes[i].name == name && forall j :: 0 <= j < i ==> nodes[j].name != name
  }

  /** An update replaces the first node of its name, taking over the cached usage
      where it brings none; a node of a new name is appended. Everything else
      stays where and as it was. */
  lemma PutExactly(nodes: seq<NodeInfo>, node: NodeInfo)
    ensures (forall j :: 0 <= j < |nodes| ==> nodes[j].name != node.name) ==> Put(nodes, node) == nodes + [node]
    ensures forall i: nat :: FirstNamed(nodes, node.name, i) ==>
              && |Put(nodes, node)| == |nodes|
              && (forall j :: 0 <= j < |nodes| && j != i ==> Put(nodes, node)[j] == nodes[j])
              && SameButUsage(Put(nodes, node)[i], node)
              && Put(nodes, node)[i].usedCPU == (if node.usedCPU != 0 then node.usedCPU else nodes[i].usedCPU)
              && Put(nodes, node)[i].usedMem == (if node.usedMem != 0 then node.usedMem else nodes[i].usedMem)
  {
    forall i: nat | FirstNamed(nodes, node.name, i)
      ensures i == Find(nodes, node.name)
    {
    }
  }

  /** Writing usage changes nothing else. */
  lemma RecomputeExactly(v: View)
    ensures var r := Recompute(v);
            && r.pending == v.pending && r.scheduled == v.scheduled && |r.nodes| == |v.nodes|
            && (forall j :: 0 <= j < |v.nodes| ==> SameButUsage(r.nodes[j], v.nodes[j]))
            && (v.scheduled == [] ==> r.nodes == v.nodes)
            && (v.scheduled != [] ==> forall j :: 0 <= j < |v.nodes| ==>
                  && r.nodes[j].usedCPU == Usage(CpuOf, v.scheduled, v.nodes[j].name)
                  && r.nodes[j].usedMem == Usage(MemOf, v.scheduled, v.nodes[j].name))
  {
  }

  function Without(nodes: seq<NodeInfo>, name: string): seq<NodeInfo> {
    if nodes == [] then []
    else
      var n := |nodes| - 1;
      Without(nodes[..n], name) + if nodes[n].name != name then [nodes[n]] else []
  }

  /** The writers. */
  datatype Op =
    | SetPending(pods: seq<PodInfo>)
    | SetScheduled(pods: seq<PodInfo>)
    | SetPods(pending: seq<PodInfo>, scheduled: seq<PodInfo>)
    | SetNodes(nodes: seq<NodeInfo>)
    | UpdateNode(node: NodeInfo)
    | RemoveNode(name: string)

  function Apply(v: View, op: Op): View {
    match op
    case SetPending(pods) => v.(pending := pods)
    case SetScheduled(pods) => Recompute(v.(scheduled := pods))
    case SetPods(pending, scheduled) => Recompute(v.(pending := pending, scheduled := scheduled))
    case SetNodes(nodes) => Recompute(v.(nodes := nodes))
    case UpdateNode(node) => Recompute(v.(nodes := Put(v.nodes, node)))
    case RemoveNode(name) => v.(nodes := Without(v.nodes, name))
  }

  function Replay(v: View, ops: seq<Op>): View
    decreases |ops|
  {
    if ops == [] then v else Replay(Apply(v, ops[0]), ops[1..])
  }

  // ---------------------------------------------------------- cache agreement

  /** Every node's cached usage is the sum over the scheduled pods naming it. */
  ghost predicate Agrees(v: View) {
    forall i :: 0 <= i < |v.nodes| ==>
      && v.nodes[i].usedCPU == Usage(CpuOf, v.scheduled, v.nodes[i].name)
      && v.nodes[i].usedMem == Usage(MemOf, v.scheduled, v.nodes[i].name)
  }

  lemma {:induction false} WithoutMembers(nodes: seq<NodeInfo>, name: string)
    ensures forall n :: n in Without(nodes, name) <==> n in nodes && n.name != name
  {
    if nodes == [] {
    } else {
      WithoutMembers(nodes[..|nodes| - 1], name);
      assert nodes == nodes[..|nodes| - 1] + [nodes[|nodes| - 1]];
    }
  }

  /** What is left are the nodes of other names, in their order. */
  lemma {:induction false} WithoutAre(nodes: seq<NodeInfo>, name: string) returns (ks: seq<nat>)
    ensures Picks(nodes, ks, Without(nodes, name))
    ensures forall j: nat :: j in ks <==> j < |nodes| && nodes[j].name != name
  {
    if nodes == [] {
      ks := [];
    } else {
      var n := |nodes| - 1;
      var before := WithoutAre(nodes[..n], name);
      ks := PicksStep(nodes, before, Without(nodes[..n], name), nodes[n].name != name, Without(nodes, name));
    }
  }

  lemma StepAgrees(v: View, op: Op)
    requires v.scheduled != [] ==> Agrees(v)
    ensures Apply(v, op).scheduled != [] ==> Agrees(Apply(v, op))
  {
    if op.RemoveNode? {
      WithoutMembers(v.nodes, op.name);
      var r := Apply(v, op);
      forall i | v.scheduled != [] && 0 <= i < |r.nodes|
        ensures r.nodes[i].usedCPU == Usage(CpuOf, v.scheduled, r.nodes[i].name)
        ensures r.nodes[i].usedMem == Usage(MemOf, v.scheduled, r.nodes[i].name)
      {
        assert r.nodes[i] in v.nodes;
      }
    }
  }

  /** Whatever the writers do, in whatever order: while some pod is scheduled,
      the cached usage is right. */
  lemma {:induction false} UsageAgrees(v: View, ops: seq<Op>)
    requires v.scheduled != [] ==> Agrees(v)
    ensures Replay(v, ops).scheduled != [] ==> Agrees(Replay(v, ops))
    decreases |ops|
  {
    if ops == [] {
    } else {
      StepAgrees(v, ops[0]);
      UsageAgrees(Apply(v, ops[0]), ops[1..]);
    }
  }

  /** A pod sync that leaves no pod scheduled does not clear the cache: it is
      right afterwards exactly when some pod is scheduled or every cached
      usage was zero before. */
  lemma SyncAgreesIff(v: View, pending: seq<PodInfo>, scheduled: seq<PodInfo>)
    ensures Agrees(Apply(v, SetPods(pending, scheduled))) <==>
            scheduled != [] || forall i :: 0 <= i < |v.nodes| ==> v.nodes[i].usedCPU == 0 && v.nodes[i].usedMem == 0
  {
    var r := Apply(v, SetPods(pending, scheduled));
    if scheduled == [] {
      assert r.nodes == v.nodes;
      assert forall name :: Usage(CpuOf, [], name) == 0 && Usage(MemOf, [], name) == 0;
    }
  }

  /** The last pod of a node leaves, and the node still looks used. */
  lemma StaleUsage(n: NodeInfo, p: PodInfo)
    requires n.name != "" && p.nodeName == n.name && p.cpu > 0
    ensures var v := Replay(EMPTY, [UpdateNode(n), SetPods([], [p]), SetPods([], [])]);
            |v.nodes| == 1 && v.nodes[0].usedCPU == p.cpu && v.scheduled == []
  {
    var ops := [UpdateNode(n), SetPods([], [p]), SetPods([], [])];
    var v1 := Apply(EMPTY, ops[0]);
    var v2 := Apply(v1, ops[1]);
    var v3 := Apply(v2, ops[2]);
    assert ops[1..] == [ops[1], ops[2]] && ops[1..][1..] == [ops[2]] && [ops[2]][1..] == [];
    assert Replay(EMPTY, ops) == Replay(v1, ops[1..]) == Replay(v2, [ops[2]]) == Replay(v3, []) == v3;
    assert v1.nodes == [n];
    assert NodeNames([p]) == [n.name];
    assert Usage(CpuOf, [p], n.name) == Tally(CpuOf, [p][..0], NodeNames([p])[..0], n.name) + p.cpu;
  }

  // --------------------------------------------------------------- commutation

  predicate IsNodeEvent(op: Op) { op.UpdateNode? || op.RemoveNode? }

  predicate IsBusySync(op: Op) { op.SetPods? && op.scheduled != [] }

  lemma FindByNames(a: seq<NodeInfo>, b: seq<NodeInfo>, name: string)
    requires NamesOf(a) == NamesOf(b)
    ensures Find(a, name) == Find(b, name)
  {
    var i, j := Find(a, name), Find(b, name);
    assert forall k :: 0 <= k < |a| ==> a[k].name == NamesOf(a)[k] == NamesOf(b)[k] == b[k].name;
  }

  lemma PutThenUsage(nodes: seq<NodeInfo>, node: NodeInfo, before: seq<PodInfo>, after: seq<PodInfo>)
    ensures AllWithUsage(Put(nodes, node), after) == AllWithUsage(Put(AllWithUsage(nodes, before), node), after)
  {
    assert NamesOf(nodes) == NamesOf(AllWithUsage(nodes, before));
    FindByNames(nodes, AllWithUsage(nodes, before), node.name);
  }

  lemma UsageTwice(nodes: seq<NodeInfo>, before: seq<PodInfo>, after: seq<PodInfo>)
    ensures AllWithUsage(AllWithUsage(nodes, before), after) == AllWithUsage(nodes, after)
  {
  }

  lemma {:induction false} WithoutThenUsage(nodes: seq<NodeInfo>, name: string, pods: seq<PodInfo>)
    ensures AllWithUsage(Without(nodes, name), pods) == Without(AllWithUsage(nodes, pods), name)
  {
    if nodes == [] {
    } else {
      var n := |nodes| - 1;
      WithoutThenUsage(nodes[..n], name, pods);
      assert AllWithUsage(nodes, pods)[..n] == AllWithUsage(nodes[..n], pods);
    }
  }

  /** A node event and a pod sync with a scheduled pod commute. */
  lemma Commute(v: View, e: Op, sync: Op)
    requires IsNodeEvent(e) && IsBusySync(sync)
    ensures Apply(Apply(v, e), sync) == Apply(Apply(v, sync), e)
  {
    match e
    case UpdateNode(node) =>
      PutThenUsage(v.nodes, node, sync.scheduled, sync.scheduled);
      UsageTwice(Put(v.nodes, node), v.scheduled, sync.scheduled);
    case RemoveNode(name) =>
      WithoutThenUsage(v.nodes, name, sync.scheduled);
  }

  /** `ops` interleaves `events` and `syncs`, each kept in its own order. */
  ghost predicate Interleaves(events: seq<Op>, syncs: seq<Op>, ops: seq<Op>)
    decreases |ops|
  {
    if ops == [] then events == [] && syncs == []
    else
      || (events != [] && ops[0] == events[0] && Interleaves(events[1..], syncs, ops[1..]))
      || (syncs != [] && ops[0] == syncs[0] && Interleaves(events, syncs[1..], ops[1..]))
  }

  lemma {:induction false} SyncPastEvents(v: View, sync: Op, events: seq<Op>)
    requires IsBusySync(sync) && forall i :: 0 <= i < |events| ==> IsNodeEvent(events[i])
    ensures Replay(Apply(v, sync), events) == Apply(Replay(v, events), sync)
    decreases |events|
  {
    if events == [] {
    } else {
      Commute(v, events[0], sync);
      SyncPastEvents(Apply(v, events[0]), sync, events[1..]);
    }
  }

  /** Every interleaving reaches the state of the node events followed by the
      pod syncs, so any two interleavings reach the same one. */
  lemma {:induction false} InterleavingsAgree(v: View, events: seq<Op>, syncs: seq<Op>, ops: seq<Op>)
    requires forall i :: 0 <= i < |events| ==> IsNodeEvent(events[i])
    requires forall i :: 0 <= i < |syncs| ==> IsBusySync(syncs[i])
    requires Interleaves(events, syncs, ops)
    ensures Replay(v, ops) == Replay(Replay(v, events), syncs)
    decreases |ops|
  {
    if ops == [] {
    } else {
      if events != [] && ops[0] == events[0] && Interleaves(events[1..], syncs, ops[1..]) {
        InterleavingsAgree(Apply(v, ops[0]), events[1..], syncs, ops[1..]);
      } else {
        InterleavingsAgree(Apply(v, ops[0]), events, syncs[1..], ops[1..]);
        SyncPastEvents(v, syncs[0], events);
      }
    }
  }

  // -------------------------------------------------------------- conservation

  function UsedCpuOf(n: NodeInfo): int { n.usedCPU }

  function UsedMemOf(n: NodeInfo): int { n.usedMem }

  lemma {:induction false} UsedTotal(nodes: seq<NodeInfo>, pods: seq<PodInfo>)
    requires forall i :: 0 <= i < |nodes| ==> nodes[i].name != ""
    requires Agrees(View([], pods, nodes))
    ensures Sum(UsedCpuOf, nodes) == TallyOver(CpuOf, pods, NodeNames(pods), NamesOf(nodes))
    ensures Sum(UsedMemOf, nodes) == TallyOver(MemOf, pods, NodeNames(pods), NamesOf(nodes))
  {
    if nodes == [] {
    } else {
      var n := |nodes| - 1;
      UsedTotal(nodes[..n], pods);
      assert NamesOf(nodes)[..n] == NamesOf(nodes[..n]);
    }
  }

  /** What the nodes are said to use is what the pods on known nodes request. */
  lemma UsageConserved(v: View)
    requires v.scheduled != [] && Agrees(v)
    requires Distinct(NamesOf(v.nodes)) && forall i :: 0 <= i < |v.nodes| ==> v.nodes[i].name != ""
    ensures Sum(UsedCpuOf, v.nodes) == SumWhere(CpuOf, v.scheduled, NodeNames(v.scheduled), NamesOf(v.nodes))
    ensures Sum(UsedMemOf, v.nodes) == SumWhere(MemOf, v.scheduled, NodeNames(v.scheduled), NamesOf(v.nodes))
  {
    assert Agrees(View([], v.scheduled, v.nodes));
    UsedTotal(v.nodes, v.scheduled);
    Exchange(CpuOf, v.scheduled, NodeNames(v.scheduled), NamesOf(v.nodes));
    Exchange(MemOf, v.scheduled, NodeNames(v.scheduled), NamesOf(v.nodes));
  }

  /** What the two watchers send: pod syncs, and events about named nodes. */
  predicate FromWatchers(op: Op) {
    match op
    case SetPods(_, _) => true
    case UpdateNode(node) => node.name != ""
    case RemoveNode(_) => true
    case _ => false
  }

  ghost predicate WellNamed(nodes: seq<NodeInfo>) {
    && (forall i, j :: 0 <= i < j < |nodes| ==> nodes[i].name != nodes[j].name)
    && forall i :: 0 <= i < |nodes| ==> nodes[i].name != ""
  }

  lemma WithoutWellNamed(nodes: seq<NodeInfo>, name: string)
    requires WellNamed(nodes)
    ensures WellNamed(Without(nodes, name))
  {
    var ks := WithoutAre(nodes, name);
    var left := Without(nodes, name);
    forall i, j | 0 <= i < j < |left|
      ensures left[i].name != left[j].name
    {
      assert ks[i] < ks[j];
    }
    forall i | 0 <= i < |left|
      ensures left[i].name != ""
    {
      assert left[i] == nodes[ks[i]];
    }
  }

  lemma UsageKeepsNames(v: View)
    requires WellNamed(v.nodes)
    ensures WellNamed(Recompute(v).nodes)
  {
  }

  lemma {:induction false} WatchersKeepNames(v: View, ops: seq<Op>)
    requires WellNamed(v.nodes) && forall i :: 0 <= i < |ops| ==> FromWatchers(ops[i])
    ensures WellNamed(Replay(v, ops).nodes)
    decreases |ops|
  {
    if ops == [] {
    } else {
      assert FromWatchers(ops[0]);
      match ops[0] {
        case UpdateNode(node) =>
          UsageKeepsNames(v.(nodes := Put(v.nodes, node)));
        case RemoveNode(name) =>
          WithoutWellNamed(v.nodes, name);
        case SetPods(pending, scheduled) =>
          UsageKeepsNames(v.(pending := pending, scheduled := scheduled));
      }
      WatchersKeepNames(Apply(v, ops[0]), ops[1..]);
    }
  }

  /** `after` are the nodes `before` with `node` brought in. A new name is
      appended; a known one is replaced where it first stands, taking over the
      cached usage where `node` brings none. All else stays where and as it was,
      but for the usage, which is that of the scheduled pods if there are any. */
  ghost predicate Updated(before: seq<NodeInfo>, scheduled: seq<PodInfo>, node: NodeInfo, after: seq<NodeInfo>) {
    && ((forall j :: 0 <= j < |before| ==> before[j].name != node.name) ==>
          && |after| == |before| + 1 && SameButUsage(after[|before|], node)
          && (forall j :: 0 <= j < |before| ==> SameButUsage(after[j], before[j]))
          && (scheduled == [] ==> after == before + [node]))
    && (forall i: nat :: FirstNamed(before, node.name, i) ==>
          && |after| == |before| && SameButUsage(after[i], node)
          && (forall j :: 0 <= j < |after| && j != i ==> SameButUsage(after[j], before[j]))
          && (scheduled == [] ==>
                && (forall j :: 0 <= j < |after| && j != i ==> after[j] == before[j])
                && after[i].usedCPU == (if node.usedCPU != 0 then node.usedCPU else before[i].usedCPU)
                && after[i].usedMem == (if node.usedMem != 0 then node.usedMem else before[i].usedMem)))
    && (scheduled != [] ==> forall j :: 0 <= j < |after| ==>
          && after[j].usedCPU == Usage(CpuOf, scheduled, after[j].name)
          && after[j].usedMem == Usage(MemOf, scheduled, after[j].name))
  }

  lemma UpdateNew(v: View, node: NodeInfo)
    requires forall j :: 0 <= j < |v.nodes| ==> v.nodes[j].name != node.name
    ensures var r := Apply(v, UpdateNode(node)).nodes;
            && |r| == |v.nodes| + 1 && SameButUsage(r[|v.nodes|], node)
            && (forall j :: 0 <= j < |v.nodes| ==> SameButUsage(r[j], v.nodes[j]))
            && (v.scheduled == [] ==> r == v.nodes + [node])
  {
    PutExactly(v.nodes, node);
    RecomputeExactly(v.(nodes := v.nodes + [node]));
  }

  lemma UpdateKnown(v: View, node: NodeInfo, i: nat)
    requires FirstNamed(v.nodes, node.name, i)
    ensures var r := Apply(v, UpdateNode(node)).nodes;
            && |r| == |v.nodes| && SameButUsage(r[i], node)
            && (forall j :: 0 <= j < |r| && j != i ==> SameButUsage(r[j], v.nodes[j]))
            && (v.scheduled == [] ==> r == Put(v.nodes, node))
  {
    PutExactly(v.nodes, node);
    RecomputeExactly(v.(nodes := Put(v.nodes, node)));
  }

  lemma UpdateUsage(v: View, node: NodeInfo)
    requires v.scheduled != []
    ensures var r := Apply(v, UpdateNode(node)).nodes;
            forall j :: 0 <= j < |r| ==>
              && r[j].usedCPU == Usage(CpuOf, v.scheduled, r[j].name)
              && r[j].usedMem == Usage(MemOf, v.scheduled, r[j].name)
  {
  }

  lemma UpdateExactly(v: View, node: NodeInfo)
    ensures Updated(v.nodes, v.scheduled, node, Apply(v, UpdateNode(node)).nodes)
  {
    if forall j :: 0 <= j < |v.nodes| ==> v.nodes[j].name != node.name {
      UpdateNew(v, node);
    } else {
      var i := Find(v.nodes, node.name);
      UpdateKnown(v, node, i);
      PutExactly(v.nodes, node);
      assert forall k: nat :: FirstNamed(v.nodes, node.name, k) ==> k == i;
    }
    if v.scheduled != [] {
      UpdateUsage(v, node);
    }
  }

  lemma {:induction false} ReplayLast(v: View, ops: seq<Op>)
    requires ops != []
    ensures Replay(v, ops) == Apply(Replay(v, ops[..|ops| - 1]), ops[|ops| - 1])
    decreases |ops|
  {
    if |ops| == 1 {
      assert ops[1..] == [] && ops[..0] == [];
    } else {
      ReplayLast(Apply(v, ops[0]), ops[1..]);
      assert ops[1..][..|ops[1..]| - 1] == ops[..|ops| - 1][1..];
    }
  }

  /** The last event about a name is the update at position `u`. */
  ghost predicate LastUpdate(ops: seq<Op>, name: string, u: nat) {
    && u < |ops| && ops[u].UpdateNode? && ops[u].node.name == name
    && forall j :: u < j < |ops| ==>
         && (ops[j].UpdateNode? ==> ops[j].node.name != name)
         && (ops[j].RemoveNode? ==> ops[j].name != name)
  }

  ghost predicate Cached(nodes: seq<NodeInfo>, name: string) {
    exists i :: 0 <= i < |nodes| && nodes[i].name == name
  }

  /** What one event makes of the nodes, name by name. */
  lemma StepShows(v: View, op: Op, n: NodeInfo)
    requires WellNamed(v.nodes) && FromWatchers(op) && n in Apply(v, op).nodes
    ensures op.UpdateNode? && n.name == op.node.name ==> SameButUsage(n, op.node)
    ensures !(op.UpdateNode? && n.name == op.node.name) ==> exists m :: m in v.nodes && SameButUsage(n, m)
    ensures op.RemoveNode? ==> n.name != op.name
  {
    match op
    case SetPods(pending, scheduled) =>
      var w := v.(pending := pending, scheduled := scheduled);
      RecomputeExactly(w);
      var i :| 0 <= i < |Apply(v, op).nodes| && Apply(v, op).nodes[i] == n;
      assert SameButUsage(n, v.nodes[i]);
    case RemoveNode(name) =>
      WithoutMembers(v.nodes, name);
      assert SameButUsage(n, n);
    case UpdateNode(node) =>
      UpdateShows(v, node, n);
  }

  lemma UpdateShows(v: View, node: NodeInfo, n: NodeInfo)
    requires WellNamed(v.nodes) && n in Apply(v, UpdateNode(node)).nodes
    ensures n.name == node.name ==> SameButUsage(n, node)
    ensures n.name != node.name ==> exists m :: m in v.nodes && SameButUsage(n, m)
  {
    var w := v.(nodes := Put(v.nodes, node));
    RecomputeExactly(w);
    PutExactly(v.nodes, node);
    var i :| 0 <= i < |Recompute(w).nodes| && Recompute(w).nodes[i] == n;
    assert SameButUsage(n, w.nodes[i]);
    var f := Find(v.nodes, node.name);
    assert f < |v.nodes| ==> FirstNamed(v.nodes, node.name, f);
    if n.name != node.name {
      assert i < |v.nodes| && w.nodes[i] == v.nodes[i];
    }
  }

  lemma StepCaches(v: View, op: Op, name: string)
    requires WellNamed(v.nodes) && FromWatchers(op)
    ensures Cached(Apply(v, op).nodes, name) <==>
            || (op.UpdateNode? && op.node.name == name)
            || (!(op.RemoveNode? && op.name == name) && Cached(v.nodes, name))
  {
    match op
    case SetPods(pending, scheduled) =>
      RecomputeExactly(v.(pending := pending, scheduled := scheduled));
      forall i | 0 <= i < |v.nodes|
        ensures Apply(v, op).nodes[i].name == v.nodes[i].name
      {
        assert SameButUsage(Apply(v, op).nodes[i], v.nodes[i]);
      }
    case RemoveNode(gone) =>
      WithoutMembers(v.nodes, gone);
      forall n
        ensures n in Without(v.nodes, gone) <==> n in v.nodes && n.name != gone
      {
      }
      NamedMembers(v.nodes, name);
      NamedMembers(Without(v.nodes, gone), name);
    case UpdateNode(node) =>
      UpdateCaches(v, node, name);
  }

  lemma NamedMembers(nodes: seq<NodeInfo>, name: string)
    ensures Cached(nodes, name) <==> exists n :: n in nodes && n.name == name
  {
    if n: NodeInfo :| n in nodes && n.name == name {
      var i :| 0 <= i < |nodes| && nodes[i] == n;
    }
    if Cached(nodes, name) {
      var i :| 0 <= i < |nodes| && nodes[i].name == name;
      assert nodes[i] in nodes;
    }
  }

  lemma UpdateCaches(v: View, node: NodeInfo, name: string)
    ensures Cached(Apply(v, UpdateNode(node)).nodes, name) <==> node.name == name || Cached(v.nodes, name)
  {
    var w := v.(nodes := Put(v.nodes, node));
    RecomputeExactly(w);
    PutExactly(v.nodes, node);
    var f := Find(v.nodes, node.name);
    assert f < |v.nodes| ==> FirstNamed(v.nodes, node.name, f);
    forall i | 0 <= i < |w.nodes|
      ensures Recompute(w).nodes[i].name == w.nodes[i].name
      ensures i < |v.nodes| ==> w.nodes[i].name == v.nodes[i].name
    {
      assert SameButUsage(Recompute(w).nodes[i], w.nodes[i]);
    }
    assert f < |w.nodes| && w.nodes[f].name == node.name;
    assert Recompute(w).nodes[f].name == node.name;
    if Cached(v.nodes, name) {
      var i :| 0 <= i < |v.nodes| && v.nodes[i].name == name;
      assert Recompute(w).nodes[i].name == name;
    }
  }

  /** Along every run of the two watchers a name is cached exactly if the last
      event about it was an update, and then the cached node shows, usage aside,
      what that update brought. */
  lemma {:induction false} LastUpdateShown(ops: seq<Op>, name: string)
    requires forall i :: 0 <= i < |ops| ==> FromWatchers(ops[i])
    ensures Cached(Replay(EMPTY, ops).nodes, name) <==> exists u: nat :: LastUpdate(ops, name, u)
    ensures forall n, u: nat :: n in Replay(EMPTY, ops).nodes && n.name == name && LastUpdate(ops, name, u) ==>
              SameButUsage(n, ops[u].node)
    decreases |ops|
  {
    if ops == [] {
    } else {
      var front, op := ops[..|ops| - 1], ops[|ops| - 1];
      var v := Replay(EMPTY, front);
      LastUpdateShown(front, name);
      WatchersKeepNames(EMPTY, front);
      ReplayLast(EMPTY, ops);
      StepCaches(v, op, name);
      LastUpdateSnoc(ops, name);
      forall n, u: nat | n in Replay(EMPTY, ops).nodes && n.name == name && LastUpdate(ops, name, u)
        ensures SameButUsage(n, ops[u].node)
      {
        StepShows(v, op, n);
        if u < |front| {
          assert LastUpdate(front, name, u);
          var m :| m in v.nodes && SameButUsage(n, m);
          assert m.name == name;
        }
      }
    }
  }

  lemma LastUpdateSnoc(ops: seq<Op>, name: string)
    requires ops != []
    ensures var front, op := ops[..|ops| - 1], ops[|ops| - 1];
            (exists u: nat :: LastUpdate(ops, name, u)) <==>
            || (op.UpdateNode? && op.node.name == name)
            || (!(op.RemoveNode? && op.name == name) && exists u: nat :: LastUpdate(front, name, u))
  {
    var front, op := ops[..|ops| - 1], ops[|ops| - 1];
    if op.UpdateNode? && op.node.name == name {
      assert LastUpdate(ops, name, |ops| - 1);
    } else {
      forall u: nat
        ensures LastUpdate(ops, name, u) <==> LastUpdate(front, name, u) && !(op.RemoveNode? && op.name == name)
      {
        if LastUpdate(ops, name, u) {
          assert u < |front|;
        }
      }
    }
  }

  /** So the totals hold along every run of the two watchers. */
  lemma WatcherRunConserves(ops: seq<Op>)
    requires forall i :: 0 <= i < |ops| ==> FromWatchers(ops[i])
    ensures var v := Replay(EMPTY, ops);
            v.scheduled != [] ==>
              && Sum(UsedCpuOf, v.nodes) == SumWhere(CpuOf, v.scheduled, NodeNames(v.scheduled), NamesOf(v.nodes))
              && Sum(UsedMemOf, v.nodes) == SumWhere(MemOf, v.scheduled, NodeNames(v.scheduled), NamesOf(v.nodes))
  {
    WatchersKeepNames(EMPTY, ops);
    UsageAgrees(EMPTY, ops);
    if Replay(EMPTY, ops).scheduled != [] {
      assert Distinct(NamesOf(Replay(EMPTY, ops).nodes));
      UsageConserved(Replay(EMPTY, ops));
    }
  }
}
