/** What the general bounds say about an estimator run: its template nodes,
    its deficit, and how both compare with any packing of the same pods. */
module PackingBounds {
  import opened Cluster
  import opened Sums
  import opened Packing
  import opened AnyFit
  import Crowding
  import opened Decreasing

  datatype ResourceDelta = ResourceDelta(cpu: int, mem: int) {
    predicate IsZero() { cpu == 0 && mem == 0 }
  }

  /** The deficit as the estimator adds it up: what is gone from each opened node. */
  function Shortfall(t: Template, added: seq<Bin>): ResourceDelta {
    if added == [] then ResourceDelta(0, 0)
    else
      var n := |added| - 1;
      var d := Shortfall(t, added[..n]);
      ResourceDelta(d.cpu + (t.cpu - added[n].cpu), d.mem + (t.mem - added[n].mem))
  }

  /** The pods of a run that went to template nodes. */
  function TemplatePods(t: Template, s0: Bins, ps: seq<PodInfo>): seq<PodInfo> {
    Select(ps, Pack(t, s0, ps).outcomes, OnTemplate)
  }

  function NodesNeeded(t: Template, s0: Bins, ps: seq<PodInfo>): nat {
    |Pack(t, s0, ps).bins.added|
  }

  function Delta(t: Template, s0: Bins, ps: seq<PodInfo>): ResourceDelta {
    Shortfall(t, Pack(t, s0, ps).bins.added)
  }

  /** The template node of each pod that went to one. */
  function BinsOf(os: seq<Outcome>): seq<nat> {
    if os == [] then []
    else
      var n := |os| - 1;
      BinsOf(os[..n]) + if os[n].Opened? then [os[n].j] else []
  }

  lemma {:induction false} SelectedTally(w: PodInfo -> int, ps: seq<PodInfo>, os: seq<Outcome>, j: nat)
    requires |ps| == |os|
    ensures |BinsOf(os)| == |Select(ps, os, OnTemplate)|
    ensures Load(w, Select(ps, os, OnTemplate), BinsOf(os), j) == Tally(w, ps, os, Opened(j))
  {
    if ps == [] {
    } else {
      var n := |ps| - 1;
      SelectedTally(w, ps[..n], os[..n], j);
      if os[n].Opened? {
        TallySnoc(w, Select(ps[..n], os[..n], OnTemplate), BinsOf(os[..n]), j, ps[n], os[n].j);
      } else {
        assert Select(ps, os, OnTemplate) == Select(ps[..n], os[..n], OnTemplate);
        assert BinsOf(os) == BinsOf(os[..n]);
      }
    }
  }

  lemma TallySnoc(w: PodInfo -> int, ps: seq<PodInfo>, bs: seq<nat>, j: nat, p: PodInfo, b: nat)
    requires |ps| == |bs|
    ensures Load(w, ps + [p], bs + [b], j) == Load(w, ps, bs, j) + if b == j then w(p) else 0
  {
    assert (ps + [p])[..|ps|] == ps && (bs + [b])[..|bs|] == bs;
  }

  /** A trace extended by one pod. */
  lemma TraceSnoc(t: Template, ps: seq<PodInfo>, bs: seq<nat>, k: nat, p: PodInfo, b: nat)
    requires |ps| == |bs| && AnyFitTrace(t, ps, bs, k) && Room(t, ps, bs, b, p)
    ensures b < k ==> AnyFitTrace(t, ps + [p], bs + [b], k)
    ensures b == k && (forall i: nat :: i < k ==> !Room(t, ps, bs, i, p)) ==> AnyFitTrace(t, ps + [p], bs + [b], k + 1)
  {
    assert (ps + [p])[..|ps|] == ps && (bs + [b])[..|bs|] == bs;
  }

  /** A template node has room exactly for what fits into its free capacity. */
  lemma RoomIsFree(t: Template, s0: Bins, ps: seq<PodInfo>, j: nat, p: PodInfo)
    requires Clean(s0) && j <= NodesNeeded(t, s0, ps)
    ensures var r := Pack(t, s0, ps);
            var free := if j < |r.bins.added| then r.bins.added[j] else t.Empty();
            && |BinsOf(r.outcomes)| == |TemplatePods(t, s0, ps)|
            && CpuIn(TemplatePods(t, s0, ps), BinsOf(r.outcomes), j) == t.cpu - free.cpu
            && MemIn(TemplatePods(t, s0, ps), BinsOf(r.outcomes), j) == t.mem - free.mem
            && free.labels == t.labels && free.taints == t.taints
  {
    var r := Pack(t, s0, ps);
    PackSound(t, s0, ps);
    SelectedTally(CpuOf, ps, r.outcomes, j);
    SelectedTally(MemOf, ps, r.outcomes, j);
    if j < |r.bins.added| {
      assert Accounts(t.Empty(), r.bins.added[j], ps, r.outcomes, Opened(j));
    } else {
      OpenedAbsent(t, s0, ps, r, j);
    }
  }

  /** A pod that goes to a template node finds room there, and opens one only
      when no open one has room: all of them share labels and taints, so only
      size can have kept it out. */
  lemma ChosenHasRoom(t: Template, s0: Bins, ps: seq<PodInfo>, p: PodInfo)
    requires Clean(s0)
    ensures var r := Pack(t, s0, ps);
            var o := Choose(t, r.bins, p);
            var tp, bs := TemplatePods(t, s0, ps), BinsOf(r.outcomes);
            && |tp| == |bs|
            && (o.Opened? ==>
                  && o.j <= |r.bins.added| && Room(t, tp, bs, o.j, p)
                  && (o.j == |r.bins.added| ==> forall i: nat :: i < o.j ==> !Room(t, tp, bs, i, p)))
  {
    var r := Pack(t, s0, ps);
    var o := Choose(t, r.bins, p);
    RoomIsFree(t, s0, ps, 0, p);
    ChoiceSensible(t, r.bins, p);
    if o.Opened? {
      RoomIsFree(t, s0, ps, o.j, p);
      if o.j == |r.bins.added| {
        forall i: nat | i < o.j
          ensures !Room(t, TemplatePods(t, s0, ps), BinsOf(r.outcomes), i, p)
        {
          RoomIsFree(t, s0, ps, i, p);
          assert !Fits(p, r.bins.added[i]);
        }
      }
    }
  }

  /** One more pod, on a template node or not, extends the trace. */
  lemma TraceStep(t: Template, tp: seq<PodInfo>, bs: seq<nat>, k: nat, p: PodInfo, o: Outcome)
    requires |tp| == |bs| && AnyFitTrace(t, tp, bs, k)
    requires o.Opened? ==> o.j <= k && Room(t, tp, bs, o.j, p)
    requires o == Opened(k) ==> forall i: nat :: i < k ==> !Room(t, tp, bs, i, p)
    ensures AnyFitTrace(t, tp + (if o.Opened? then [p] else []), bs + (if o.Opened? then [o.j] else []),
                        k + if o == Opened(k) then 1 else 0)
  {
    if o.Opened? {
      TraceSnoc(t, tp, bs, k, p, o.j);
    } else {
      assert tp + [] == tp && bs + [] == bs;
    }
  }

  /** On template nodes a run is an any-fit packing. */
  lemma {:induction false} RunIsAnyFit(t: Template, s0: Bins, ps: seq<PodInfo>)
    requires Clean(s0)
    ensures var r := Pack(t, s0, ps);
            && |BinsOf(r.outcomes)| == |TemplatePods(t, s0, ps)|
            && AnyFitTrace(t, TemplatePods(t, s0, ps), BinsOf(r.outcomes), NodesNeeded(t, s0, ps))
  {
    if ps == [] {
    } else {
      var n := |ps| - 1;
      RunIsAnyFit(t, s0, ps[..n]);
      ChosenHasRoom(t, s0, ps[..n], ps[n]);
      var q := Pack(t, s0, ps[..n]);
      var o := Choose(t, q.bins, ps[n]);
      SelectLast(t, s0, ps, q, o);
      CountLast(t, s0, ps, q, o);
      TraceStep(t, TemplatePods(t, s0, ps[..n]), BinsOf(q.outcomes), |q.bins.added|, ps[n], o);
    }
  }

  lemma SelectLast(t: Template, s0: Bins, ps: seq<PodInfo>, q: Run, o: Outcome)
    requires |ps| > 0 && q == Pack(t, s0, ps[..|ps| - 1]) && o == Choose(t, q.bins, ps[|ps| - 1])
    ensures TemplatePods(t, s0, ps)
         == TemplatePods(t, s0, ps[..|ps| - 1]) + if o.Opened? then [ps[|ps| - 1]] else []
    ensures BinsOf(Pack(t, s0, ps).outcomes) == BinsOf(q.outcomes) + if o.Opened? then [o.j] else []
  {
    PackUnfold(t, s0, ps, ps[..|ps| - 1]);
    SelectSnoc(ps, q.outcomes, o);
  }

  lemma CountLast(t: Template, s0: Bins, ps: seq<PodInfo>, q: Run, o: Outcome)
    requires |ps| > 0 && q == Pack(t, s0, ps[..|ps| - 1]) && o == Choose(t, q.bins, ps[|ps| - 1])
    ensures NodesNeeded(t, s0, ps)
         == |q.bins.added| + if o.Opened? && o.j == |q.bins.added| then 1 else 0
  {
    PackUnfold(t, s0, ps, ps[..|ps| - 1]);
    AddedAfter(t, q.bins, ps[|ps| - 1]);
  }

  lemma AddedAfter(t: Template, s: Bins, p: PodInfo)
    ensures var o := Choose(t, s, p);
            |Apply(t, s, p, o).added| == |s.added| + if o.Opened? && o.j == |s.added| then 1 else 0
  {
  }

  lemma PackUnfold(t: Template, s0: Bins, ps: seq<PodInfo>, front: seq<PodInfo>)
    requires |ps| > 0 && front == ps[..|ps| - 1]
    ensures var q := Pack(t, s0, front);
            var o := Choose(t, q.bins, ps[|ps| - 1]);
            Pack(t, s0, ps) == Run(Apply(t, q.bins, ps[|ps| - 1], o), q.outcomes + [o])
  {
  }

  lemma SelectSnoc(ps: seq<PodInfo>, os: seq<Outcome>, o: Outcome)
    requires |ps| == |os| + 1
    ensures Select(ps, os + [o], OnTemplate)
         == Select(ps[..|os|], os, OnTemplate) + if o.Opened? then [ps[|os|]] else []
    ensures BinsOf(os + [o]) == BinsOf(os) + if o.Opened? then [o.j] else []
  {
    assert (os + [o])[..|os|] == os;
  }

  // ---------------------------------------------------------------- deficit

  lemma {:induction false} ShortfallTotal(t: Template, added: seq<Bin>, ps: seq<PodInfo>, bs: seq<nat>)
    requires |ps| == |bs|
    requires forall j: nat :: j < |added| ==>
               CpuIn(ps, bs, j) == t.cpu - added[j].cpu && MemIn(ps, bs, j) == t.mem - added[j].mem
    ensures Shortfall(t, added)
         == ResourceDelta(TallyOver(CpuOf, ps, bs, Below(|added|)), TallyOver(MemOf, ps, bs, Below(|added|)))
  {
    if added == [] {
    } else {
      var n: nat := |added| - 1;
      BelowFacts(|added|);
      forall j: nat | j < n
        ensures CpuIn(ps, bs, j) == t.cpu - added[..n][j].cpu && MemIn(ps, bs, j) == t.mem - added[..n][j].mem
      {
        assert CpuIn(ps, bs, j) == t.cpu - added[j].cpu;
      }
      ShortfallTotal(t, added[..n], ps, bs);
      assert CpuIn(ps, bs, n) == t.cpu - added[n].cpu;
    }
  }

  /** The deficit is exactly what the pods on template nodes request. */
  lemma DeltaIsTemplateDemand(t: Template, s0: Bins, ps: seq<PodInfo>)
    requires Clean(s0)
    ensures var tp := TemplatePods(t, s0, ps);
            Delta(t, s0, ps) == ResourceDelta(Sum(CpuOf, tp), Sum(MemOf, tp))
  {
    var r := Pack(t, s0, ps);
    var tp, bs := TemplatePods(t, s0, ps), BinsOf(r.outcomes);
    RunIsAnyFit(t, s0, ps);
    forall j: nat | j < |r.bins.added|
      ensures CpuIn(tp, bs, j) == t.cpu - r.bins.added[j].cpu && MemIn(tp, bs, j) == t.mem - r.bins.added[j].mem
    {
      if ps != [] { RoomIsFree(t, s0, ps, j, ps[0]); }
    }
    ShortfallTotal(t, r.bins.added, tp, bs);
    TraceKeys(t, tp, bs, |r.bins.added|);
    BinsTotal(CpuOf, tp, bs, |r.bins.added|);
    BinsTotal(MemOf, tp, bs, |r.bins.added|);
  }

  /** Requests are conserved: what the pods ask for is what existing nodes
      took, plus the deficit, plus what was rejected. */
  lemma DemandConserved(t: Template, s0: Bins, ps: seq<PodInfo>)
    requires Clean(s0)
    ensures var os := Pack(t, s0, ps).outcomes;
            && Sum(CpuOf, ps)
               == Sum(CpuOf, Select(ps, os, OnExisting)) + Delta(t, s0, ps).cpu + Sum(CpuOf, Select(ps, os, Rejected))
            && Sum(MemOf, ps)
               == Sum(MemOf, Select(ps, os, OnExisting)) + Delta(t, s0, ps).mem + Sum(MemOf, Select(ps, os, Rejected))
  {
    var os := Pack(t, s0, ps).outcomes;
    KindsPartition(CpuOf, ps, os);
    KindsPartition(MemOf, ps, os);
    DeltaIsTemplateDemand(t, s0, ps);
  }

  ghost predicate AllNonZero(ps: seq<PodInfo>) {
    forall i :: 0 <= i < |ps| ==> ps[i].cpu > 0 || ps[i].mem > 0
  }

  lemma {:induction false} SelectMembers(ps: seq<PodInfo>, os: seq<Outcome>, kind: Kind, p: PodInfo)
    requires |ps| == |os| && p in Select(ps, os, kind)
    ensures p in ps
  {
    var n := |ps| - 1;
    if p in Select(ps[..n], os[..n], kind) {
      SelectMembers(ps[..n], os[..n], kind, p);
      assert p in ps[..n];
    } else {
      assert p == ps[n];
    }
  }

  lemma SumPositive(ps: seq<PodInfo>)
    requires |ps| > 0 && AllNonZero(ps)
    ensures Sum(CpuOf, ps) > 0 || Sum(MemOf, ps) > 0
  {
    SumNonNegative(CpuOf, ps[..|ps| - 1]);
    SumNonNegative(MemOf, ps[..|ps| - 1]);
  }

  /** There is a deficit exactly when nodes are needed. */
  lemma DeltaZeroIff(t: Template, s0: Bins, ps: seq<PodInfo>)
    requires Clean(s0) && AllNonZero(ps)
    ensures Delta(t, s0, ps).IsZero() <==> NodesNeeded(t, s0, ps) == 0
    ensures Delta(t, s0, ps).cpu >= 0 && Delta(t, s0, ps).mem >= 0
  {
    var tp, os := TemplatePods(t, s0, ps), Pack(t, s0, ps).outcomes;
    RunIsAnyFit(t, s0, ps);
    TraceKeys(t, tp, BinsOf(os), NodesNeeded(t, s0, ps));
    DeltaIsTemplateDemand(t, s0, ps);
    SumNonNegative(CpuOf, tp);
    SumNonNegative(MemOf, tp);
    forall i | 0 <= i < |tp|
      ensures tp[i].cpu > 0 || tp[i].mem > 0
    {
      SelectMembers(ps, os, OnTemplate, tp[i]);
    }
    if tp != [] {
      SumPositive(tp);
    }
  }

  // ----------------------------------------------------------------- bounds

  /** The needed nodes do hold the pods, and no packing of them uses three
      times fewer. */
  lemma NodesNeededWithinThreefold(t: Template, s0: Bins, ps: seq<PodInfo>, gs: seq<nat>, m: nat)
    requires Clean(s0) && PacksInto(t, TemplatePods(t, s0, ps), gs, m)
    ensures PacksInto(t, TemplatePods(t, s0, ps), BinsOf(Pack(t, s0, ps).outcomes), NodesNeeded(t, s0, ps))
    ensures NodesNeeded(t, s0, ps) >= 1 ==> NodesNeeded(t, s0, ps) <= 3 * m - 2
  {
    var tp, bs, k := TemplatePods(t, s0, ps), BinsOf(Pack(t, s0, ps).outcomes), NodesNeeded(t, s0, ps);
    RunIsAnyFit(t, s0, ps);
    TracePacks(t, tp, bs, k);
    if k >= 1 {
      Crowding.WithinThreefold(t, tp, bs, k, gs, m);
    }
  }

  /** The deficit alone bounds the number of nodes, from both sides. */
  lemma DeltaBoundsNodes(t: Template, s0: Bins, ps: seq<PodInfo>)
    requires t.cpu > 0 && t.mem > 0 && Clean(s0)
    ensures var k, d := NodesNeeded(t, s0, ps), Delta(t, s0, ps);
            && d.cpu <= k * t.cpu && d.mem <= k * t.mem
            && (k >= 2 ==> k * (t.cpu * t.mem) < 2 * Volume(t, d.cpu, d.mem))
            && forall m: nat :: m >= 1 && d.cpu <= m * t.cpu && d.mem <= m * t.mem ==> k <= 3 * m - 2
  {
    var tp, bs, k := TemplatePods(t, s0, ps), BinsOf(Pack(t, s0, ps).outcomes), NodesNeeded(t, s0, ps);
    RunIsAnyFit(t, s0, ps);
    DeltaIsTemplateDemand(t, s0, ps);
    TracePacks(t, tp, bs, k);
    PackedVolume(t, tp, bs, k);
    if k >= 2 {
      TwoDimensional(t, tp, bs, k);
    }
    forall m: nat | m >= 1 && Delta(t, s0, ps).cpu <= m * t.cpu && Delta(t, s0, ps).mem <= m * t.mem
      ensures k <= 3 * m - 2
    {
      Crowding.WithinVolume(t, tp, bs, k, m);
    }
  }

  /** Pods of at most one m-th of the template waste at most one m-th per node. */
  lemma SmallPodNodes(t: Template, s0: Bins, ps: seq<PodInfo>, m: nat)
    requires t.cpu > 0 && t.mem > 0 && Clean(s0) && m >= 1
    requires var tp := TemplatePods(t, s0, ps);
             forall l :: 0 <= l < |tp| ==> m * tp[l].cpu <= t.cpu && m * tp[l].mem <= t.mem
    ensures var k, d := NodesNeeded(t, s0, ps), Delta(t, s0, ps);
            k >= 2 ==> (k - 1) * ((m - 1) * (t.cpu * t.mem)) < m * Volume(t, d.cpu, d.mem)
  {
    RunIsAnyFit(t, s0, ps);
    DeltaIsTemplateDemand(t, s0, ps);
    if NodesNeeded(t, s0, ps) >= 2 {
      SmallPods(t, TemplatePods(t, s0, ps), BinsOf(Pack(t, s0, ps).outcomes), NodesNeeded(t, s0, ps), m);
    }
  }

  lemma {:induction false} SelectByScore(t: Template, ps: seq<PodInfo>, os: seq<Outcome>, kind: Kind)
    requires |ps| == |os| && ByScore(t, ps)
    ensures ByScore(t, Select(ps, os, kind))
  {
    if ps == [] {
    } else {
      var n := |ps| - 1;
      SelectByScore(t, ps[..n], os[..n], kind);
      var front := Select(ps[..n], os[..n], kind);
      forall i | 0 <= i < |front|
        ensures Score(t, front[i]) >= Score(t, ps[n])
      {
        SelectMembers(ps[..n], os[..n], kind, front[i]);
      }
    }
  }

  /** When one dimension dominates every pod on template nodes, decreasing
      order brings the estimate within three halves of the best, plus a half. */
  lemma NodesNeededDecreasing(t: Template, s0: Bins, ps: seq<PodInfo>, gs: seq<nat>, m: nat)
    requires t.cpu > 0 && t.mem > 0 && Clean(s0) && ByScore(t, ps)
    requires var tp := TemplatePods(t, s0, ps);
             (forall i :: 0 <= i < |tp| ==> CpuDominated(t, tp[i]))
                 || (forall i :: 0 <= i < |tp| ==> MemDominated(t, tp[i]))
    requires PacksInto(t, TemplatePods(t, s0, ps), gs, m)
    ensures 2 * NodesNeeded(t, s0, ps) <= 3 * m + 1
  {
    RunIsAnyFit(t, s0, ps);
    SelectByScore(t, ps, Pack(t, s0, ps).outcomes, OnTemplate);
    DecreasingBound(t, TemplatePods(t, s0, ps), BinsOf(Pack(t, s0, ps).outcomes), NodesNeeded(t, s0, ps), gs, m);
  }
}
