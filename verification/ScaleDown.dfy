/** Scale-down over whole runs: how many removals there can be, which node is
    never picked again, and how removals are spaced in time. */
module ScaleDown {
  import opened Wrappers
  import opened Cluster
  import opened ControllerSteps
  import opened Estimation
  import opened Lifecycle
  import opened ControllerSystem
  import opened NodeLimits
  import opened Reconciles

  // -------------------------------------------------------- scale-down progress

  function Schedulable(s: System): set<string> {
    set m | m in s.nodes && !s.nodes[m]
  }

  /** Schedulable nodes, and the one picked for removal but not cordoned yet. */
  function Marked(s: System): set<string> {
    Schedulable(s) + if Held(s).Removing? then {Held(s).node} else {}
  }

  lemma PickedSchedulable(cfg: Config, s: System, st: Step)
    requires Enabled(s, st) && Exact(cfg, s, st) && st.PickIdle?
    ensures var pc := Next(cfg, s, st).pcs[st.g]; pc.Removing? ==> pc.node in Schedulable(s)
  {
    IdleMembers(st.view, st.probes, cfg.percent);
    var idle := IdleNodes(st.view, st.probes, cfg.percent);
    if idle != [] {
      assert idle[0] in st.view && Usable(idle[0]);
    }
  }

  /** Steps that neither pick, cordon nor add nodes mark no further node. */
  lemma QuietMarked(cfg: Config, s: System, st: Step)
    requires Exclusive(s) && Enabled(s, st) && Exact(cfg, s, st)
    requires !st.PickIdle? && !st.CordonNode? && !st.CreateNode? && !st.NodeJoins? && !st.LateJoin?
    ensures var t := Next(cfg, s, st); Marked(t) <= Marked(s) && t.cordons == s.cordons && t.joined == s.joined
  {
    var t := Next(cfg, s, st);
    assert Held(t).Removing? ==> Held(s) == Held(t);
    assert Schedulable(t) <= Schedulable(s);
  }

  lemma PickMarked(cfg: Config, s: System, st: Step)
    requires Exclusive(s) && Enabled(s, st) && Exact(cfg, s, st) && st.PickIdle?
    ensures Marked(Next(cfg, s, st)) <= Marked(s)
  {
    assert s.holder == Some(st.g);
    PickedSchedulable(cfg, s, st);
  }

  lemma CordonMarked(cfg: Config, s: System, st: Step)
    requires Exclusive(s) && Enabled(s, st) && st.CordonNode?
    ensures var t := Next(cfg, s, st);
            && t.joined == s.joined
            && (t.cordons == s.cordons + 1 ==>
                  s.pcs[st.g].node in Marked(s) && Marked(t) <= Marked(s) - {s.pcs[st.g].node})
            && (t.cordons != s.cordons + 1 ==> t.cordons == s.cordons && Marked(t) <= Marked(s))
  {
    assert s.holder == Some(st.g);
  }

  lemma StepMarked(cfg: Config, s: System, st: Step)
    requires Exclusive(s) && Enabled(s, st) && Exact(cfg, s, st)
    ensures var t := Next(cfg, s, st); |Marked(t)| + t.cordons - t.joined <= |Marked(s)| + s.cordons - s.joined
  {
    var t := Next(cfg, s, st);
    if st.PickIdle? {
      PickMarked(cfg, s, st);
      SubsetSize(Marked(t), Marked(s));
    } else if st.CordonNode? {
      CordonMarked(cfg, s, st);
      SubsetSize(Marked(t), if t.cordons == s.cordons + 1 then Marked(s) - {s.pcs[st.g].node} else Marked(s));
    } else if st.CreateNode? || st.NodeJoins? || st.LateJoin? {
      JoinMarked(cfg, s, st);
    } else {
      QuietMarked(cfg, s, st);
      SubsetSize(Marked(t), Marked(s));
    }
  }

  lemma JoinMarked(cfg: Config, s: System, st: Step)
    requires Exclusive(s) && Enabled(s, st) && (st.CreateNode? || st.NodeJoins? || st.LateJoin?)
    ensures var t := Next(cfg, s, st); t.cordons == s.cordons && |Marked(t)| - t.joined <= |Marked(s)| - s.joined
  {
    if st.CreateNode? {
      assert s.holder == Some(st.g);
      MarkedJoin(s, Next(cfg, s, st), st.joins);
    } else {
      MarkedJoin(s, Next(cfg, s, st), Some(st.m));
    }
  }

  lemma MarkedJoin(s: System, t: System, joins: Option<string>)
    requires t.nodes == if joins.Some? then s.nodes[joins.value := false] else s.nodes
    requires Held(t).Removing? ==> Held(s) == Held(t)
    ensures |Marked(t)| <= |Marked(s)| + if joins.Some? then 1 else 0
  {
    if joins.Some? {
      assert Marked(t) <= Marked(s) + {joins.value};
      SubsetSize(Marked(t), Marked(s) + {joins.value});
    } else {
      SubsetSize(Marked(t), Marked(s));
    }
  }

  lemma {:induction false} RunMarked(cfg: Config, s: System, steps: seq<Step>, t: System)
    requires Exclusive(s) && Runs(cfg, s, steps, t) && Along(cfg, s, steps, Exact)
    ensures |Marked(t)| + t.cordons - t.joined <= |Marked(s)| + s.cordons - s.joined
    decreases |steps|
  {
    if steps == [] {
    } else {
      StepExclusive(cfg, s, steps[0]);
      StepMarked(cfg, s, steps[0]);
      RunMarked(cfg, Next(cfg, s, steps[0]), steps[1..], t);
    }
  }

  /** Scale-down makes progress: however drains and clean-ups end, the removals
      that get past the cordon are at most the nodes that were schedulable at
      the start plus those that joined. */
  lemma RemovalsBounded(cfg: Config, s: System, steps: seq<Step>, t: System)
    requires Initial(s) && Runs(cfg, s, steps, t) && Along(cfg, s, steps, Exact)
    ensures t.cordons + |Schedulable(t)| <= |Schedulable(s)| + t.joined
  {
    RunMarked(cfg, s, steps, t);
    assert Marked(s) == Schedulable(s);
    SubsetSize(Schedulable(t), Marked(t));
  }

  predicate Joins(st: Step, m: string) {
    ((st.NodeJoins? || st.LateJoin?) && st.m == m) || (st.CreateNode? && st.joins == Some(m))
  }

  /** A node that is cordoned, whether or not its removal then failed, is never
      picked again, unless a new node joins under its name. */
  lemma {:induction false} NeverPickedAgain(cfg: Config, s: System, steps: seq<Step>, t: System, pick: Step, m: string)
    requires Runs(cfg, s, steps, t) && Along(cfg, s, steps, Exact)
    requires m in s.nodes ==> s.nodes[m]
    requires forall i :: 0 <= i < |steps| ==> !Joins(steps[i], m)
    requires pick.PickIdle? && Enabled(t, pick) && Exact(cfg, t, pick)
    ensures Next(cfg, t, pick).pcs[pick.g] != Removing(m, t.clock)
    decreases |steps|
  {
    if steps == [] {
      PickedSchedulable(cfg, t, pick);
    } else {
      assert !Joins(steps[0], m);
      NeverPickedAgain(cfg, Next(cfg, s, steps[0]), steps[1..], t, pick, m);
    }
  }

  // ---------------------------------------------------------------- the cooldown

  /** After a removal that reported success every other starts a full cooldown
      later. */
  ghost predicate Paced(cd: Cooldowns, removals: seq<RemovalTry>) {
    && (forall i :: 0 <= i < |removals| ==> removals[i].start <= removals[i].end)
    && forall i, j :: 0 <= i < j < |removals| && removals[i].ok ==> removals[j].start >= removals[i].end + cd.down
  }

  /** Every removal that reported success ended by the time remembered as the
      last, and the one under way began a full cooldown after that time. */
  ghost predicate Remembered(cd: Cooldowns, s: System) {
    var pc := Held(s);
    && Paced(cd, s.removals)
    && (forall i :: 0 <= i < |s.removals| && s.removals[i].ok ==> s.removals[i].end <= s.ctl.lastDown)
    && (forall i :: 0 <= i < |s.removals| ==> s.removals[i].end <= s.clock)
    && (pc.Removing? || pc.Draining? ==> pc.since <= s.clock && pc.since >= s.ctl.lastDown + cd.down)
  }

  lemma EndRemembered(cfg: Config, s: System, st: Step)
    requires Exclusive(s) && Remembered(cfg.cooldowns, s) && Enabled(s, st) && (st.CordonNode? || st.EndRemoval?)
    ensures Remembered(cfg.cooldowns, Next(cfg, s, st))
  {
    assert s.holder == Some(st.g);
    assert s.ctl.inFlight == 0;
  }

  lemma StepRemembered(cfg: Config, s: System, st: Step)
    requires Exclusive(s) && Remembered(cfg.cooldowns, s) && Enabled(s, st)
    ensures Remembered(cfg.cooldowns, Next(cfg, s, st))
    ensures s.removals <= Next(cfg, s, st).removals
  {
    if st.CordonNode? || st.EndRemoval? {
      EndRemembered(cfg, s, st);
    } else if st.PickIdle? {
      assert s.holder == Some(st.g);
    } else {
      QuietRemembered(cfg, s, st);
    }
  }

  lemma QuietRemembered(cfg: Config, s: System, st: Step)
    requires Exclusive(s) && Enabled(s, st) && !st.CordonNode? && !st.EndRemoval? && !st.PickIdle?
    ensures var t := Next(cfg, s, st);
            && t.removals == s.removals && t.ctl.lastDown == s.ctl.lastDown && t.clock >= s.clock
            && (Held(t).Removing? || Held(t).Draining? ==> Held(t) == Held(s))
  {
    if OwnStep(st) {
      OwnMove(cfg, s, st, st.g);
    }
  }

  lemma {:induction false} RunRemembered(cfg: Config, s: System, steps: seq<Step>, t: System)
    requires Exclusive(s) && Remembered(cfg.cooldowns, s) && Runs(cfg, s, steps, t)
    ensures Remembered(cfg.cooldowns, t) && s.removals <= t.removals
    decreases |steps|
  {
    if steps == [] {
    } else {
      StepExclusive(cfg, s, steps[0]);
      StepRemembered(cfg, s, steps[0]);
      RunRemembered(cfg, Next(cfg, s, steps[0]), steps[1..], t);
    }
  }

  /** Along every run every later removal, successful or not, starts at least a
      full scale-down cooldown after one that reported success. */
  lemma RemovalsSpaced(cfg: Config, s: System, steps: seq<Step>, t: System)
    requires Initial(s) && Runs(cfg, s, steps, t)
    ensures Paced(cfg.cooldowns, t.removals)
  {
    RunRemembered(cfg, s, steps, t);
  }

  // ------------------------------------------------- when removals are not spaced

  /** The steps that end a removal: a cordon that fails, or the end of the drain
      and the clean-up, however they went. */
  predicate EndsRemoval(s: System, st: Step)
    requires Enabled(s, st)
  {
    st.EndRemoval? || (st.CordonNode? && !(st.ok && s.pcs[st.g].node in s.nodes))
  }

  predicate Succeeds(st: Step) { st.EndRemoval? && st.ok }

  /** Where a removal ends nothing else is left to wait for: unless it reported
      success, the cooldown is over. */
  lemma EndsFree(cfg: Config, s: System, st: Step)
    requires Exclusive(s) && Remembered(cfg.cooldowns, s) && Enabled(s, st) && EndsRemoval(s, st)
    ensures var u := Next(cfg, s, st);
            && st.g < |u.pcs| && u.pcs[st.g].Unlocking? && u.clock == s.clock
            && u.removals == s.removals + [u.removals[|s.removals|]]
            && u.removals[|s.removals|].end == s.clock && u.removals[|s.removals|].ok == Succeeds(st)
            && (!Succeeds(st) ==> !CoolingDown(u.ctl, cfg.cooldowns, u.clock))
  {
    assert s.holder == Some(st.g);
  }

  /** The lock is released, the next tick takes it and picks an idle node, all in
      one moment. */
  lemma PicksAtOnce(cfg: Config, s: System, g: nat, view: seq<NodeInfo>, probes: seq<Probe>)
    returns (steps: seq<Step>, t: System)
    requires g < |s.pcs| && s.pcs[g].Unlocking? && !CoolingDown(s.ctl, cfg.cooldowns, s.clock)
    requires |probes| == |view| && IdleNodes(view, probes, cfg.percent) != []
    requires Exact(cfg, s, PickIdle(|s.pcs|, view, probes))
    ensures Runs(cfg, s, steps, t) && Along(cfg, s, steps, Exact)
    ensures t.removals == s.removals && t.clock == s.clock && t.nodes == s.nodes
    ensures Held(t) == Removing(IdleNodes(view, probes, cfg.percent)[0].name, s.clock)
    ensures t.holder == Some(|s.pcs|) && |t.pcs| == |s.pcs| + 1
  {
    var m := Goto(s.(holder := None), g, Finished);
    RunsSnoc(cfg, s, [], s, Unlock(g), Exact);
    var lock := LockRound(cfg, m, Exact);
    var u := Taken(m, 0, Deciding);
    RunsConcat(cfg, s, [] + [Unlock(g)], m, lock, u, Exact);
    var pick := PickIdle(|s.pcs|, view, probes);
    t := Next(cfg, u, pick);
    RunsSnoc(cfg, s, [] + [Unlock(g)] + lock, u, pick, Exact);
    steps := [] + [Unlock(g)] + lock + [pick];
  }

  /** A removal that does not report success holds up nothing, be it the cordon,
      the drain or the clean-up that failed, and even if the node is gone: the
      next one can begin in the very same moment. */
  lemma FailedRemovalsUnspaced(cfg: Config, s: System, st: Step, view: seq<NodeInfo>, probes: seq<Probe>)
    returns (steps: seq<Step>, t: System)
    requires Exclusive(s) && Remembered(cfg.cooldowns, s)
    requires Enabled(s, st) && EndsRemoval(s, st) && !Succeeds(st)
    requires |probes| == |view| && IdleNodes(view, probes, cfg.percent) != []
    requires Exact(cfg, Next(cfg, s, st), PickIdle(|s.pcs|, view, probes))
    ensures Runs(cfg, Next(cfg, s, st), steps, t) && Along(cfg, Next(cfg, s, st), steps, Exact)
    ensures t.removals == Next(cfg, s, st).removals
    ensures Held(t) == Removing(IdleNodes(view, probes, cfg.percent)[0].name, s.clock)
  {
    EndsFree(cfg, s, st);
    steps, t := PicksAtOnce(cfg, Next(cfg, s, st), st.g, view, probes);
  }

  /** Whatever happens from here on, every removal yet to be recorded starts at
      least a full cooldown from now. */
  ghost predicate SpacedFromNow(cfg: Config, s: System, ok: (Config, System, Step) -> bool) {
    forall steps, t, j ::
      Runs(cfg, s, steps, t) && Along(cfg, s, steps, ok) && |s.removals| <= j < |t.removals| ==>
        t.removals[j].start >= s.clock + cfg.cooldowns.down
  }

  /** A node that has just joined, ready and without load. */
  function Newcomer(name: string): NodeInfo {
    NodeInfo(name, 1, 1, 0, 0, true, false, 0, None, [])
  }

  lemma NewcomerIdle(name: string, percent: real)
    requires percent > 0.0
    ensures IdleNodes([Newcomer(name)], [SAW_NOTHING], percent) == [Newcomer(name)]
  {
    var probes := [SAW_NOTHING];
    assert IdleNodes([Newcomer(name)][..0], probes[..0], percent) == [];
    assert FoundIdle(Newcomer(name), probes[0], percent);
  }

  /** A node joins, is picked at once, and its removal fails at once. */
  lemma AnotherAtOnce(cfg: Config, s: System, g: nat) returns (steps: seq<Step>, t: System)
    requires g < |s.pcs| && s.pcs[g].Unlocking? && !CoolingDown(s.ctl, cfg.cooldowns, s.clock) && cfg.percent > 0.0
    ensures Runs(cfg, s, steps, t) && Along(cfg, s, steps, Exact)
    ensures t.removals == s.removals + [RemovalTry(s.clock, s.clock, false, false)]
  {
    var least := FreshNames(s.nodes.Keys);
    var name := Fresh(least, 0);
    var m := s.(nodes := s.nodes[name := false], joined := s.joined + 1);
    RunsSnoc(cfg, s, [], s, NodeJoins(name), Exact);
    NewcomerIdle(name, cfg.percent);
    var picked, u := PicksAtOnce(cfg, m, g, [Newcomer(name)], [SAW_NOTHING]);
    RunsConcat(cfg, s, [] + [NodeJoins(name)], m, picked, u, Exact);
    t := Next(cfg, u, CordonNode(|s.pcs|, false));
    RunsSnoc(cfg, s, [] + [NodeJoins(name)] + picked, u, CordonNode(|s.pcs|, false), Exact);
    steps := [] + [NodeJoins(name)] + picked + [CordonNode(|s.pcs|, false)];
  }

  /** However a removal ends in a run: all later ones keep the cooldown's
      distance to it exactly when it reports success, whether or not nodes are
      uncordoned and views are out of date from here on. */
  lemma SpacedIff(cfg: Config, s0: System, front: seq<Step>, s: System, st: Step)
    requires Initial(s0) && Runs(cfg, s0, front, s) && Enabled(s, st) && EndsRemoval(s, st)
    requires cfg.cooldowns.down > 0 && cfg.percent > 0.0
    ensures SpacedFromNow(cfg, Next(cfg, s, st), Anything) <==> Succeeds(st)
    ensures SpacedFromNow(cfg, Next(cfg, s, st), Exact) <==> Succeeds(st)
  {
    RunExclusive(cfg, s0, front, s);
    RunRemembered(cfg, s0, front, s);
    EndsFree(cfg, s, st);
    if Succeeds(st) {
      SuccessSpaces(cfg, s, st);
    } else {
      FailureDoesNot(cfg, s, st);
    }
  }

  lemma SuccessSpaces(cfg: Config, s: System, st: Step)
    requires Exclusive(s) && Remembered(cfg.cooldowns, s) && Enabled(s, st) && EndsRemoval(s, st) && Succeeds(st)
    ensures SpacedFromNow(cfg, Next(cfg, s, st), Anything) && SpacedFromNow(cfg, Next(cfg, s, st), Exact)
  {
    var u := Next(cfg, s, st);
    EndsFree(cfg, s, st);
    StepExclusive(cfg, s, st);
    StepRemembered(cfg, s, st);
    forall steps, t, j | Runs(cfg, u, steps, t) && |u.removals| <= j < |t.removals|
      ensures t.removals[j].start >= u.clock + cfg.cooldowns.down
    {
      RunRemembered(cfg, u, steps, t);
      assert t.removals[|s.removals|] == u.removals[|s.removals|];
    }
  }

  lemma FailureDoesNot(cfg: Config, s: System, st: Step)
    requires Exclusive(s) && Remembered(cfg.cooldowns, s) && Enabled(s, st) && EndsRemoval(s, st) && !Succeeds(st)
    requires cfg.cooldowns.down > 0 && cfg.percent > 0.0
    ensures !SpacedFromNow(cfg, Next(cfg, s, st), Anything) && !SpacedFromNow(cfg, Next(cfg, s, st), Exact)
  {
    var u := Next(cfg, s, st);
    EndsFree(cfg, s, st);
    var steps, t := AnotherAtOnce(cfg, u, st.g);
    AlongAnything(cfg, u, steps, Exact);
    assert t.removals[|u.removals|].start == u.clock;
  }

  lemma {:induction false} AlongAnything(cfg: Config, s: System, steps: seq<Step>, ok: (Config, System, Step) -> bool)
    requires Along(cfg, s, steps, ok)
    ensures Along(cfg, s, steps, Anything)
    decreases |steps|
  {
    if steps == [] {
    } else {
      AlongAnything(cfg, Next(cfg, s, steps[0]), steps[1..], ok);
    }
  }
}
