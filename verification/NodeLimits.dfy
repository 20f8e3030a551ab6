/** How many nodes there can be: the limit the policy sets, what late nodes do
    to it, and the minimum that only the policy's own scale-down knows. */
module NodeLimits {
  import opened Wrappers
  import opened Cluster
  import opened Estimation
  import opened PackingBounds
  import opened ScalingPolicy
  import opened ControllerSteps
  import opened Lifecycle
  import opened ControllerSystem
  import opened Reconciles

  lemma {:induction false} SubsetSize<T>(a: set<T>, b: set<T>)
    requires a <= b
    ensures |a| <= |b|
    decreases |a|
  {
    if a == {} {
    } else {
      var x :| x in a;
      SubsetSize(a - {x}, b - {x});
    }
  }

  lemma {:induction false} NamesBound(names: set<string>, view: seq<NodeInfo>)
    requires forall m :: m in names ==> exists i :: 0 <= i < |view| && view[i].name == m
    ensures |names| <= |view|
    decreases |view|
  {
    if view == [] {
      assert names == {};
    } else {
      var n := |view| - 1;
      var rest := names - {view[n].name};
      forall m | m in rest
        ensures exists i :: 0 <= i < |view[..n]| && view[..n][i].name == m
      {
        var i :| 0 <= i < |view| && view[i].name == m;
        assert view[..n][i].name == m;
      }
      NamesBound(rest, view[..n]);
      assert names <= rest + {view[n].name};
      SubsetSize(names, rest + {view[n].name});
    }
  }

  // -------------------------------------------------------------------- the limit

  function Live(s: System): nat { |s.nodes.Keys| }

  /** CreateNode calls that may still come. */
  function Coming(pc: Pc): int {
    match pc
    case ScalingUp(count) => if count > 0 then count else 0
    case Provisioning(_, total, done, _) => total - done
    case _ => 0
  }

  /** Live nodes and those that CreateNode calls still to come may add. */
  function Expected(s: System): int { Live(s) + Coming(Held(s)) }

  /** Between decisions no step makes room for more: every node that joins was
      expected, or registers late and then was stray before. */
  lemma StepExpected(cfg: Config, s: System, st: Step)
    requires Exclusive(s) && Enabled(s, st) && !st.NodeJoins? && !st.DecideUp?
    ensures var t := Next(cfg, s, st);
            && Expected(t) - t.late <= Expected(s) - s.late
            && Expected(t) + t.strays <= Expected(s) + s.strays
  {
    if st.CreateNode? {
      CreateExpected(cfg, s, st);
    } else if st.LateJoin? {
      OneKeyMore(s.nodes, st.m);
    } else {
      QuietStep(cfg, s, st);
      SubsetSize(Next(cfg, s, st).nodes.Keys, s.nodes.Keys);
    }
  }

  lemma CreateExpected(cfg: Config, s: System, st: Step)
    requires Exclusive(s) && Enabled(s, st) && st.CreateNode?
    ensures var t := Next(cfg, s, st);
            && Expected(t) <= Expected(s) && t.late == s.late && Expected(t) + t.strays <= Expected(s) + s.strays
  {
    assert s.holder == Some(st.g);
    if st.joins.Some? {
      OneKeyMore(s.nodes, st.joins.value);
    }
  }

  /** Steps that neither decide nor create leave no more to come, and no more nodes. */
  lemma QuietStep(cfg: Config, s: System, st: Step)
    requires Exclusive(s) && Enabled(s, st)
    requires !st.DecideUp? && !st.CreateNode? && !st.NodeJoins? && !st.LateJoin?
    ensures var t := Next(cfg, s, st);
            && Coming(Held(t)) <= Coming(Held(s)) && t.nodes.Keys <= s.nodes.Keys
            && t.late == s.late && t.strays == s.strays
  {
    if st.StartBatch? {
      assert s.holder == Some(st.g) && s.ctl.inFlight == 0;
    }
  }

  /** What a decision leads to expect: no more than before, or what the view
      leaves below the limit. */
  lemma DecideExpected(cfg: Config, s: System, st: Step)
    requires Exclusive(s) && Enabled(s, st) && st.DecideUp?
    ensures var t := Next(cfg, s, st);
            && t.nodes == s.nodes && t.late == s.late && t.strays == s.strays
            && Held(t) == t.pcs[st.g]
            && (Coming(Held(t)) > 0 ==> Coming(Held(t)) <= cfg.policy.maxNodes - |st.view|)
            && Coming(Held(t)) >= 0
  {
    assert s.holder == Some(st.g);
  }

  lemma {:induction false} RunExpected(cfg: Config, s: System, steps: seq<Step>, t: System, cap: int)
    requires Exclusive(s) && Runs(cfg, s, steps, t) && Along(cfg, s, steps, Covered)
    requires Expected(s) - s.late <= cap && cap >= cfg.policy.maxNodes
    ensures Exclusive(t) && Expected(t) - t.late <= cap && Coming(Held(t)) >= 0
    decreases |steps|
  {
    if steps == [] {
      assert WellFormed(Held(s));
    } else {
      var st, u := steps[0], Next(cfg, s, steps[0]);
      StepExclusive(cfg, s, st);
      if st.DecideUp? {
        DecideExpected(cfg, s, st);
        NamesBound(s.nodes.Keys, st.view);
        assert WellFormed(Held(s)) && Coming(Held(s)) >= 0;
      } else {
        StepExpected(cfg, s, st);
      }
      RunExpected(cfg, u, steps[1..], t, cap);
    }
  }

  /** Over every run the live nodes exceed the limit, or what they were at the
      start if that was more, by no more than the nodes that registered after
      their failing CreateNode call had returned. */
  lemma NodeCap(cfg: Config, s: System, steps: seq<Step>, t: System)
    requires Initial(s) && Runs(cfg, s, steps, t) && Along(cfg, s, steps, Covered)
    ensures Live(t) <= (if Live(s) > cfg.policy.maxNodes then Live(s) else cfg.policy.maxNodes) + t.late
  {
    RunExpected(cfg, s, steps, t, if Live(s) > cfg.policy.maxNodes then Live(s) else cfg.policy.maxNodes);
  }

  // ------------------------------------------------------------------- late nodes

  /** The count a decision to scale up leads to, or zero. */
  function Granted(cfg: Config, st: Step): int
    requires st.DecideUp?
  {
    var d := ScaleUpCount(cfg.policy, st.delta, |st.view|);
    if st.needed == 0 || d.None? then 0 else Clamp(d.value, st.needed)
  }

  /** It is the right count for the view: within both limits, and just enough. */
  lemma GrantedRight(cfg: Config, st: Step)
    requires st.DecideUp? && cfg.policy.nodeCPU > 0 && cfg.policy.nodeMem > 0
    requires st.delta.cpu >= 0 && st.delta.mem >= 0
    ensures Granted(cfg, st) > 0 <==>
            && st.needed > 0 && |st.view| < cfg.policy.maxNodes && !(st.delta.cpu == 0 && st.delta.mem == 0)
            && (st.delta.cpu > cfg.policy.cpuThreshold || st.delta.mem > cfg.policy.memThreshold)
    ensures Granted(cfg, st) > 0 ==> RightCount(cfg.policy, st.delta, st.needed, |st.view|, Granted(cfg, st))
  {
    if st.needed > 0 && ScaleUpCount(cfg.policy, st.delta, |st.view|).Some? {
      ClampedCountRight(cfg.policy, st.delta, st.needed, |st.view|);
    }
  }

  /** The missing guard: what counts are all live nodes, whether or not the view
      shows them, and the containers that may still register. */
  ghost predicate Counted(cfg: Config, s: System, st: Step) {
    && !st.NodeJoins?
    && (st.DecideUp? && Granted(cfg, st) > 0 ==> Live(s) + s.strays + Granted(cfg, st) <= cfg.policy.maxNodes)
  }

  lemma {:induction false} RunCounted(cfg: Config, s: System, steps: seq<Step>, t: System)
    requires Exclusive(s) && Runs(cfg, s, steps, t) && Along(cfg, s, steps, Counted)
    requires Expected(s) + s.strays <= cfg.policy.maxNodes
    ensures Live(t) <= cfg.policy.maxNodes
    decreases |steps|
  {
    if steps == [] {
      assert WellFormed(Held(s));
    } else {
      var st := steps[0];
      StepExclusive(cfg, s, st);
      if st.DecideUp? {
        DecideExpected(cfg, s, st);
        assert WellFormed(Held(s));
      } else {
        StepExpected(cfg, s, st);
      }
      RunCounted(cfg, Next(cfg, s, st), steps[1..], t);
    }
  }

  /** Every stray container's node registers. */
  lemma {:induction false} AllRegister(cfg: Config, s: System, k: nat) returns (steps: seq<Step>, t: System)
    requires k <= s.strays
    ensures Runs(cfg, s, steps, t) && Along(cfg, s, steps, Covered)
    ensures forall i :: 0 <= i < |steps| ==> !steps[i].DecideUp?
    ensures Live(t) == Live(s) + k && t.late == s.late + k && t.strays == s.strays - k
  {
    if k == 0 {
      steps, t := [], s;
    } else {
      var front, m := AllRegister(cfg, s, k - 1);
      var last := OneRegisters(cfg, m);
      t := Next(cfg, m, last);
      RunsSnoc(cfg, s, front, m, last, Covered);
      steps := front + [last];
    }
  }

  lemma OneRegisters(cfg: Config, s: System) returns (st: Step)
    requires s.strays > 0
    ensures Enabled(s, st) && st.LateJoin?
    ensures var t := Next(cfg, s, st); Live(t) == Live(s) + 1 && t.late == s.late + 1 && t.strays == s.strays - 1
  {
    var least := FreshNames(s.nodes.Keys);
    st := LateJoin(Fresh(least, 0));
    assert Next(cfg, s, st).nodes.Keys == s.nodes.Keys + {st.m};
  }

  lemma {:induction false} NoDecisionCounts(cfg: Config, s: System, steps: seq<Step>)
    requires Along(cfg, s, steps, Covered) && forall i :: 0 <= i < |steps| ==> !steps[i].DecideUp?
    ensures Along(cfg, s, steps, Counted)
    decreases |steps|
  {
    if steps == [] {
    } else {
      NoDecisionCounts(cfg, Next(cfg, s, steps[0]), steps[1..]);
    }
  }

  /** Every call succeeds at once. */
  function Succeeding(least: nat): Plan {
    Plan((i: nat) => true, (i: nat) => Fresh(least, i), (i: nat) => 0, false)
  }

  lemma {:induction false} AllSucceed(least: nat, n: nat)
    ensures Successes(Succeeding(least).outcome, n) == n
  {
    if n == 0 {
    } else {
      AllSucceed(least, n - 1);
    }
  }

  /** A goroutine that is about to scale up can bring all nodes it counts on,
      and then every stray one may turn up as well. */
  lemma AllArrive(cfg: Config, s: System, g: nat) returns (steps: seq<Step>, t: System)
    requires Exclusive(s) && g < |s.pcs| && s.pcs[g].ScalingUp? && s.pcs[g].count > 0
    ensures Runs(cfg, s, steps, t) && Along(cfg, s, steps, Covered)
    ensures forall i :: 0 <= i < |steps| ==> !steps[i].DecideUp?
    ensures Live(t) == Live(s) + s.pcs[g].count + s.strays && t.late == s.late + s.strays
  {
    var front, m := AllCreated(cfg, s, g);
    var late;
    late, t := AllRegister(cfg, m, s.strays);
    RunsConcat(cfg, s, front, m, late, t, Covered);
    steps := front + late;
  }

  lemma CreatedCounts(cfg: Config, s: System, g: nat, least: nat, n: nat)
    requires g < |s.pcs| && NewNames(s.nodes, Succeeding(least))
    ensures var t := Done(cfg, s, g, Succeeding(least), n);
            Live(t) == Live(s) + n && t.late == s.late && t.strays == s.strays
  {
    GrownSize(s.nodes, Succeeding(least), n);
    AllSucceed(least, n);
  }

  lemma AllCreated(cfg: Config, s: System, g: nat) returns (steps: seq<Step>, t: System)
    requires Exclusive(s) && g < |s.pcs| && s.pcs[g].ScalingUp? && s.pcs[g].count > 0
    ensures Runs(cfg, s, steps, t) && Along(cfg, s, steps, Covered)
    ensures forall i :: 0 <= i < |steps| ==> !steps[i].DecideUp?
    ensures Live(t) == Live(s) + s.pcs[g].count && t.late == s.late && t.strays == s.strays
  {
    var dt := Remaining(s.ctl, cfg.cooldowns, s.clock);
    var n := s.pcs[g].count;
    var s1 := s.(clock := s.clock + dt);
    RunsSnoc(cfg, s, [], s, Elapse(dt), Covered);
    var least := FreshNames(s.nodes.Keys);
    var plan := Succeeding(least);
    assert s.holder == Some(g) && s.ctl.inFlight == 0;
    assert BatchSize(s1.ctl, cfg.cooldowns, n, [], s1.clock) == n;
    var batch := SoloBatch(cfg, s1, g, [], plan);
    t := Done(cfg, s1, g, plan, n);
    CreatedCounts(cfg, s1, g, least, n);
    RunsConcat(cfg, s, [] + [Elapse(dt)], s1, batch, t, Covered);
    steps := [] + [Elapse(dt)] + batch;
  }

  /** Whatever happens from here on, as long as decisions yet to come count the
      stray containers, the limit is not exceeded. */
  ghost predicate KeepsLimit(cfg: Config, s: System) {
    forall steps, t :: Runs(cfg, s, steps, t) && Along(cfg, s, steps, Counted) ==> Live(t) <= cfg.policy.maxNodes
  }

  /** A decision to scale up keeps the limit exactly when the live nodes, the
      stray containers and the nodes it asks for stay within it together. The
      policy checks this of the nodes its view shows, which may be too few. */
  lemma LimitKeptIff(cfg: Config, s: System, st: Step)
    requires Exclusive(s) && Enabled(s, st) && st.DecideUp? && Granted(cfg, st) > 0
    ensures KeepsLimit(cfg, Next(cfg, s, st)) <==> Live(s) + s.strays + Granted(cfg, st) <= cfg.policy.maxNodes
  {
    var u := Next(cfg, s, st);
    StepExclusive(cfg, s, st);
    assert s.holder == Some(st.g) && u.pcs[st.g] == ScalingUp(Granted(cfg, st)) == Held(u);
    if Live(s) + s.strays + Granted(cfg, st) <= cfg.policy.maxNodes {
      forall steps, t | Runs(cfg, u, steps, t) && Along(cfg, u, steps, Counted)
        ensures Live(t) <= cfg.policy.maxNodes
      {
        RunCounted(cfg, u, steps, t);
      }
    } else {
      var steps, t := AllArrive(cfg, u, st.g);
      NoDecisionCounts(cfg, u, steps);
      assert Live(t) > cfg.policy.maxNodes;
    }
  }

  /** So the bound on late nodes is the best there is: from one node below the
      limit, after `k` failing scale-ups and one that succeeds, there can be
      `k` nodes more than the limit, though every view was complete. */
  lemma LateNodesExceed(cfg: Config, s: System, view: seq<NodeInfo>, delta: ResourceDelta, k: nat)
    returns (steps: seq<Step>, t: System)
    requires Initial(s) && Pressing(cfg, s, view, delta) && Live(s) == cfg.policy.maxNodes - 1
    ensures Runs(cfg, s, steps, t) && Along(cfg, s, steps, Covered)
    ensures Live(t) == cfg.policy.maxNodes + k && t.late == k
  {
    var failing, m := FailingRounds(cfg, s, view, delta, k);
    var decide := DecideRound(cfg, m, view, delta, 0);
    var u := Taken(m, 0, ScalingUp(1));
    RunsConcat(cfg, s, failing, m, decide, u, Covered);
    RunExclusive(cfg, m, decide, u);
    var rest;
    rest, t := AllArrive(cfg, u, |m.pcs|);
    RunsConcat(cfg, s, failing + decide, u, rest, t, Covered);
    steps := failing + decide + rest;
  }

  // ------------------------------------------------------------------ the minimum

  function Leaving(pc: Pc): nat { if pc.Removing? || pc.Draining? then 1 else 0 }

  /** The missing guard: no node is picked while there are no more than the
      minimum. Nodes leave through removals only. */
  ghost predicate Guarded(cfg: Config, s: System, st: Step) {
    && !st.NodeGone?
    && (st.PickIdle? && |st.probes| == |st.view| && Live(s) <= cfg.policy.minNodes ==>
          IdleNodes(st.view, st.probes, cfg.percent) == [] || CoolingDown(s.ctl, cfg.cooldowns, s.clock))
  }

  /** The nodes that will be there even if the removal under way succeeds. */
  function Staying(s: System): int { Live(s) - Leaving(Held(s)) }

  lemma StepStaying(cfg: Config, s: System, st: Step)
    requires Exclusive(s) && Enabled(s, st) && !st.NodeGone? && !st.PickIdle?
    ensures Staying(Next(cfg, s, st)) >= Staying(s)
  {
    var t := Next(cfg, s, st);
    if OwnStep(st) {
      OwnMove(cfg, s, st, st.g);
    }
    if st.EndRemoval? {
      EndStaying(cfg, s, st);
    } else {
      SubsetSize(s.nodes.Keys, t.nodes.Keys);
    }
  }

  lemma EndStaying(cfg: Config, s: System, st: Step)
    requires Exclusive(s) && Enabled(s, st) && st.EndRemoval?
    ensures Staying(Next(cfg, s, st)) >= Staying(s)
  {
    var t := Next(cfg, s, st);
    assert s.holder == Some(st.g) && !t.pcs[st.g].Draining?;
    if t.nodes != s.nodes {
      assert t.nodes.Keys == s.nodes.Keys - {s.pcs[st.g].node};
    }
  }

  lemma PickStaying(cfg: Config, s: System, st: Step)
    requires Exclusive(s) && Enabled(s, st) && st.PickIdle? && Guarded(cfg, s, st)
    ensures var t := Next(cfg, s, st); Staying(t) >= Staying(s) || Staying(t) >= cfg.policy.minNodes
  {
    assert s.holder == Some(st.g);
  }

  lemma {:induction false} RunStaying(cfg: Config, s: System, steps: seq<Step>, t: System, floor: int)
    requires Exclusive(s) && Runs(cfg, s, steps, t) && Along(cfg, s, steps, Guarded)
    requires Staying(s) >= floor && floor <= cfg.policy.minNodes
    ensures Live(t) >= floor
    decreases |steps|
  {
    if steps == [] {
    } else {
      StepExclusive(cfg, s, steps[0]);
      if steps[0].PickIdle? {
        PickStaying(cfg, s, steps[0]);
      } else {
        StepStaying(cfg, s, steps[0]);
      }
      RunStaying(cfg, Next(cfg, s, steps[0]), steps[1..], t, floor);
    }
  }

  /** With the guard the minimum is kept over every run, or what there was at
      the start if that was less. */
  lemma MinimumKept(cfg: Config, s: System, steps: seq<Step>, t: System)
    requires Initial(s) && Runs(cfg, s, steps, t) && Along(cfg, s, steps, Guarded)
    ensures Live(t) >= if Live(s) < cfg.policy.minNodes then Live(s) else cfg.policy.minNodes
  {
    RunStaying(cfg, s, steps, t, if Live(s) < cfg.policy.minNodes then Live(s) else cfg.policy.minNodes);
  }

  /** Without it the minimum is lost: a pick at or below it can go through. */
  lemma MinimumLost(cfg: Config, s: System, pick: Step) returns (steps: seq<Step>, t: System)
    requires Enabled(s, pick) && Exact(cfg, s, pick) && pick.PickIdle?
    requires IdleNodes(pick.view, pick.probes, cfg.percent) != [] && !CoolingDown(s.ctl, cfg.cooldowns, s.clock)
    ensures Runs(cfg, Next(cfg, s, pick), steps, t)
    ensures Along(cfg, Next(cfg, s, pick), steps, Exact) && Along(cfg, Next(cfg, s, pick), steps, Guarded)
    ensures Live(t) == Live(s) - 1
    ensures t.nodes == s.nodes - {IdleNodes(pick.view, pick.probes, cfg.percent)[0].name}
  {
    var g, u := pick.g, Next(cfg, s, pick);
    var n := IdleNodes(pick.view, pick.probes, cfg.percent)[0].name;
    PickedLive(cfg, s, pick);
    t := Next(cfg, Next(cfg, u, CordonNode(g, true)), EndRemoval(g, true, true));
    steps := RemovalSteps(g);
    RemovalRuns(cfg, u, g, Exact);
    RemovalRuns(cfg, u, g, Guarded);
    assert t.nodes == s.nodes - {n} && t.nodes.Keys == s.nodes.Keys - {n};
  }

  /** A removal in which everything succeeds. */
  function RemovalSteps(g: nat): seq<Step> { [] + [CordonNode(g, true)] + [EndRemoval(g, true, true)] }

  lemma RemovalRuns(cfg: Config, s: System, g: nat, ok: (Config, System, Step) -> bool)
    requires g < |s.pcs| && s.pcs[g].Removing? && s.pcs[g].node in s.nodes
    requires ok(cfg, s, CordonNode(g, true)) && ok(cfg, Next(cfg, s, CordonNode(g, true)), EndRemoval(g, true, true))
    ensures var m := Next(cfg, s, CordonNode(g, true));
            && Enabled(m, EndRemoval(g, true, true))
            && Runs(cfg, s, RemovalSteps(g), Next(cfg, m, EndRemoval(g, true, true)))
            && Along(cfg, s, RemovalSteps(g), ok)
  {
    var m := Next(cfg, s, CordonNode(g, true));
    RunsSnoc(cfg, s, [], s, CordonNode(g, true), ok);
    RunsSnoc(cfg, s, [] + [CordonNode(g, true)], m, EndRemoval(g, true, true), ok);
  }

  lemma PickedLive(cfg: Config, s: System, pick: Step)
    requires Enabled(s, pick) && Exact(cfg, s, pick) && pick.PickIdle?
    requires IdleNodes(pick.view, pick.probes, cfg.percent) != []
    ensures IdleNodes(pick.view, pick.probes, cfg.percent)[0].name in s.nodes
  {
    IdleMembers(pick.view, pick.probes, cfg.percent);
    assert IdleNodes(pick.view, pick.probes, cfg.percent)[0] in pick.view;
  }

  /** Whatever happens from here on, as long as picks yet to come are guarded,
      there are at least as many nodes as the minimum. */
  ghost predicate KeepsMinimum(cfg: Config, s: System) {
    forall steps, t :: Runs(cfg, s, steps, t) && Along(cfg, s, steps, Guarded) ==> Live(t) >= cfg.policy.minNodes
  }

  /** A pick keeps the minimum exactly when the node to spare is there, or
      nothing is picked. */
  lemma MinimumKeptIff(cfg: Config, s: System, pick: Step)
    requires Exclusive(s) && Enabled(s, pick) && Exact(cfg, s, pick) && pick.PickIdle?
    requires Live(s) >= cfg.policy.minNodes
    ensures KeepsMinimum(cfg, Next(cfg, s, pick)) <==>
            || Live(s) > cfg.policy.minNodes
            || IdleNodes(pick.view, pick.probes, cfg.percent) == []
            || CoolingDown(s.ctl, cfg.cooldowns, s.clock)
  {
    var u := Next(cfg, s, pick);
    if Guarded(cfg, s, pick) {
      StepExclusive(cfg, s, pick);
      PickStaying(cfg, s, pick);
      assert s.holder == Some(pick.g);
      forall steps, t | Runs(cfg, u, steps, t) && Along(cfg, u, steps, Guarded)
        ensures Live(t) >= cfg.policy.minNodes
      {
        RunStaying(cfg, u, steps, t, cfg.policy.minNodes);
      }
    } else {
      var steps, t := MinimumLost(cfg, s, pick);
    }
  }

  /** The documented minimum of one node is the policy's alone: the controller
      removes an idle node even when it is the only one. */
  lemma LastNodeGoes(cfg: Config, s: System, n: NodeInfo, probe: Probe) returns (steps: seq<Step>, t: System)
    requires Initial(s) && s.nodes == map[n.name := false] && !CoolingDown(s.ctl, cfg.cooldowns, s.clock)
    requires FoundIdle(n, probe, cfg.percent)
    ensures Runs(cfg, s, steps, t) && Along(cfg, s, steps, Exact)
    ensures t.nodes == map[]
  {
    var pick := PickIdle(0, [n], [probe]);
    assert IdleNodes([n], [probe], cfg.percent) == [n] by {
      assert IdleNodes([n][..0], [probe][..0], cfg.percent) == [];
    }
    var front := LockRound(cfg, s, Exact);
    var m := Taken(s, 0, Deciding);
    RunExclusive(cfg, s, front, m);
    RunsSnoc(cfg, s, front, m, pick, Exact);
    var rest;
    rest, t := MinimumLost(cfg, m, pick);
    RunsConcat(cfg, s, front + [pick], Next(cfg, m, pick), rest, t, Exact);
    steps := front + [pick] + rest;
  }

  // ------------------------------------------------------------- the minimum age

  /** The same view, with other creation times. */
  function Aged(view: seq<NodeInfo>, born: seq<int>): (r: seq<NodeInfo>)
    requires |born| == |view|
    ensures |r| == |view| && forall i :: 0 <= i < |view| ==> r[i] == view[i].(createdAt := born[i])
  {
    seq(|view|, i requires 0 <= i < |view| => view[i].(createdAt := born[i]))
  }

  lemma {:induction false} AgedIdle(view: seq<NodeInfo>, born: seq<int>, probes: seq<Probe>, percent: real)
    requires |born| == |view| == |probes|
    ensures var a, b := IdleNodes(view, probes, percent), IdleNodes(Aged(view, born), probes, percent);
            |a| == |b| && forall i :: 0 <= i < |a| ==> a[i].name == b[i].name
  {
    if view == [] {
    } else {
      var n := |view| - 1;
      AgedIdle(view[..n], born[..n], probes[..n], percent);
      assert Aged(view, born)[..n] == Aged(view[..n], born[..n]);
    }
  }

  /** If a node is picked, it is older than the policy's minimum. */
  ghost predicate PicksOld(cfg: Config, s: System, view: seq<NodeInfo>, probes: seq<Probe>)
    requires |view| == |probes|
  {
    var idle := IdleNodes(view, probes, cfg.percent);
    idle != [] && !CoolingDown(s.ctl, cfg.cooldowns, s.clock) ==> s.clock - idle[0].createdAt > cfg.policy.cooldown
  }

  /** The pick does not look at the nodes' ages: whatever they are it is the
      same, so at all ages together it respects the minimum exactly when it
      picks nothing. */
  lemma PickIgnoresAge(cfg: Config, s: System, g: nat, view: seq<NodeInfo>, probes: seq<Probe>)
    requires Enabled(s, PickIdle(g, view, probes))
    ensures forall born :: |born| == |view| ==>
              Next(cfg, s, PickIdle(g, Aged(view, born), probes)) == Next(cfg, s, PickIdle(g, view, probes))
    ensures (forall born :: |born| == |view| ==> PicksOld(cfg, s, Aged(view, born), probes)) <==>
            IdleNodes(view, probes, cfg.percent) == [] || CoolingDown(s.ctl, cfg.cooldowns, s.clock)
  {
    forall born: seq<int> | |born| == |view|
      ensures Next(cfg, s, PickIdle(g, Aged(view, born), probes)) == Next(cfg, s, PickIdle(g, view, probes))
      ensures IdleNodes(view, probes, cfg.percent) == [] ==> PicksOld(cfg, s, Aged(view, born), probes)
    {
      AgedIdle(view, born, probes, cfg.percent);
    }
    if IdleNodes(view, probes, cfg.percent) != [] && !CoolingDown(s.ctl, cfg.cooldowns, s.clock) {
      YoungPicked(cfg, s, view, probes);
    }
  }

  lemma YoungPicked(cfg: Config, s: System, view: seq<NodeInfo>, probes: seq<Probe>)
    requires |view| == |probes|
    requires IdleNodes(view, probes, cfg.percent) != [] && !CoolingDown(s.ctl, cfg.cooldowns, s.clock)
    ensures exists born :: |born| == |view| && !PicksOld(cfg, s, Aged(view, born), probes)
  {
    var born := seq(|view|, _ => s.clock - cfg.policy.cooldown);
    AgedIdle(view, born, probes, cfg.percent);
    IdleMembers(Aged(view, born), probes, cfg.percent);
    var young := IdleNodes(Aged(view, born), probes, cfg.percent)[0];
    assert young in Aged(view, born);
    assert !PicksOld(cfg, s, Aged(view, born), probes);
  }

  /** Only the pods of node `i` are asked for, and there are none. */
  function OneProbe(n: nat, i: nat): (probes: seq<Probe>)
    ensures |probes| == n
    ensures forall j :: 0 <= j < n ==> probes[j] == if j == i then SAW_NOTHING else NotAsked
  {
    seq(n, j => if j == i then SAW_NOTHING else NotAsked)
  }

  lemma {:induction false} OnlyIdle(view: seq<NodeInfo>, i: nat, percent: real, n: nat)
    requires i < |view| && n <= |view| && Usable(view[i]) && Idle(view[i], percent)
    ensures var probes := OneProbe(|view|, i);
            IdleNodes(view[..n], probes[..n], percent) == if i < n then [view[i]] else []
  {
    var probes := OneProbe(|view|, i);
    if n == 0 {
    } else {
      OnlyIdle(view, i, percent, n - 1);
      assert view[..n][..n - 1] == view[..n - 1] && probes[..n][..n - 1] == probes[..n - 1];
      OneFound(view, i, percent, n - 1);
      IdleUnfold(view[..n], probes[..n], percent);
    }
  }

  lemma OneFound(view: seq<NodeInfo>, i: nat, percent: real, k: nat)
    requires i < |view| && k < |view| && Usable(view[i]) && Idle(view[i], percent)
    ensures FoundIdle(view[k], OneProbe(|view|, i)[k], percent) <==> k == i
  {
    assert OneProbe(|view|, i)[k] == if k == i then SAW_NOTHING else NotAsked;
  }

  lemma IdleUnfold(nodes: seq<NodeInfo>, probes: seq<Probe>, percent: real)
    requires |nodes| == |probes| > 0
    ensures var n := |nodes| - 1;
            var front := IdleNodes(nodes[..n], probes[..n], percent);
            IdleNodes(nodes, probes, percent)
            == front + if FoundIdle(nodes[n], probes[n], percent) then [nodes[n]] else []
  {
  }

  /** The minimum age is respected, whatever the list calls will show, exactly
      when the cooldown is on or every usable, under-used node of the view is
      old enough. The removal path checks only the cooldown. */
  lemma AgeKeptIff(cfg: Config, s: System, view: seq<NodeInfo>)
    ensures (forall probes :: |probes| == |view| ==> PicksOld(cfg, s, view, probes)) <==>
            || CoolingDown(s.ctl, cfg.cooldowns, s.clock)
            || forall i :: 0 <= i < |view| && Usable(view[i]) && Idle(view[i], cfg.percent) ==>
                 s.clock - view[i].createdAt > cfg.policy.cooldown
  {
    if !CoolingDown(s.ctl, cfg.cooldowns, s.clock) {
      forall i | 0 <= i < |view| && Usable(view[i]) && Idle(view[i], cfg.percent)
                 && s.clock - view[i].createdAt <= cfg.policy.cooldown
        ensures !PicksOld(cfg, s, view, OneProbe(|view|, i))
      {
        OnlyIdle(view, i, cfg.percent, |view|);
        assert view[..|view|] == view && OneProbe(|view|, i)[..|view|] == OneProbe(|view|, i);
      }
      forall probes: seq<Probe> | |probes| == |view| && !PicksOld(cfg, s, view, probes)
        ensures exists i :: 0 <= i < |view| && Usable(view[i]) && Idle(view[i], cfg.percent)
                            && s.clock - view[i].createdAt <= cfg.policy.cooldown
      {
        IdleMembers(view, probes, cfg.percent);
        var young := IdleNodes(view, probes, cfg.percent)[0];
        assert young in view;
        var i :| 0 <= i < |view| && view[i] == young;
      }
    }
  }
}
