/** The controller among its tick goroutines, the clock and the cluster, as a
    machine of small steps: every tick spawns a goroutine, any of them may take
    the next step, and nodes come and go in between. */
module ControllerSystem {
  import opened Wrappers
  import opened Cluster
  import opened PackingBounds
  import opened ScalingPolicy
  import opened ControllerSteps
  import opened Lifecycle

  datatype Config = Config(policy: ThresholdPolicy, cooldowns: Cooldowns, percent: real)

  /** Where a goroutine stands. */
  datatype Pc =
    | Waiting
    | Deciding
    | ScalingUp(count: int)
    | Provisioning(start: int, total: nat, done: nat, good: nat)
    | Settled(total: nat)
    | Removing(node: string, since: int)
    | Draining(node: string, since: int)
    | Unlocking
    | Finished

  datatype Batch = Batch(start: int, end: int, attempts: nat, successes: nat)

  /** An attempt to remove a node: whether the node went, and whether that was
      reported. A delete call may report a failure and take effect all the same. */
  datatype RemovalTry = RemovalTry(start: int, end: int, gone: bool, ok: bool)

  /** `nodes` maps each live node to whether it is cordoned; `strays` counts the
      containers that failed CreateNode calls left running and whose nodes have
      not registered yet. `joined`, `late`, `cordons`, `batches` and `removals`
      are the history. */
  datatype System = System(
    clock: int,
    holder: Option<nat>,
    pcs: seq<Pc>,
    ctl: Ctl,
    nodes: map<string, bool>,
    strays: nat,
    joined: nat,
    late: nat,
    cordons: nat,
    batches: seq<Batch>,
    removals: seq<RemovalTry>)

  datatype Step =
    | Elapse(dt: nat)
    | Tick
    | TryLock(g: nat)
    | DecideUp(g: nat, view: seq<NodeInfo>, delta: ResourceDelta, needed: nat)
    | PickIdle(g: nat, view: seq<NodeInfo>, probes: seq<Probe>)
    | StartBatch(g: nat, view: seq<NodeInfo>)
    | CreateNode(g: nat, ok: bool, joins: Option<string>, lingers: bool)
    | LateJoin(m: string)
    | SettleBatch(g: nat)
    | GiveBack(g: nat)
    | CordonNode(g: nat, ok: bool)
    | EndRemoval(g: nat, gone: bool, ok: bool)
    | Unlock(g: nat)
    | NodeCordoned(m: string)
    | NodeUncordoned(m: string)
    | NodeGone(m: string)
    | NodeJoins(m: string)

  /** A failed CreateNode may leave a node behind as well as a successful one,
      or a container whose node registers after the call has returned. */
  predicate Enabled(s: System, st: Step) {
    match st
    case Elapse(_) => true
    case Tick => true
    case TryLock(g) => g < |s.pcs| && s.pcs[g].Waiting?
    case DecideUp(g, _, _, _) => g < |s.pcs| && s.pcs[g].Deciding?
    case PickIdle(g, view, probes) => g < |s.pcs| && s.pcs[g].Deciding? && |probes| == |view|
    case StartBatch(g, _) => g < |s.pcs| && s.pcs[g].ScalingUp?
    case CreateNode(g, ok, joins, lingers) =>
      && g < |s.pcs| && s.pcs[g].Provisioning? && s.pcs[g].done < s.pcs[g].total
      && (joins.Some? ==> joins.value !in s.nodes) && (lingers ==> !ok && joins.None?)
    case LateJoin(m) => s.strays > 0 && m !in s.nodes
    case SettleBatch(g) => g < |s.pcs| && s.pcs[g].Provisioning? && s.pcs[g].done == s.pcs[g].total
    case GiveBack(g) => g < |s.pcs| && s.pcs[g].Settled?
    case CordonNode(g, _) => g < |s.pcs| && s.pcs[g].Removing?
    case EndRemoval(g, gone, ok) =>
      g < |s.pcs| && s.pcs[g].Draining? && (gone ==> s.pcs[g].node in s.nodes) && (ok ==> gone)
    case Unlock(g) => g < |s.pcs| && s.pcs[g].Unlocking?
    case NodeCordoned(m) => m in s.nodes
    case NodeUncordoned(m) => m in s.nodes
    case NodeGone(m) => m in s.nodes
    case NodeJoins(m) => m !in s.nodes
  }

  function Goto(s: System, g: nat, pc: Pc): System
    requires g < |s.pcs|
  {
    s.(pcs := s.pcs[g := pc])
  }

  ghost function Next(cfg: Config, s: System, st: Step): System
    requires Enabled(s, st)
  {
    match st
    case Elapse(dt) => s.(clock := s.clock + dt)
    case Tick => s.(pcs := s.pcs + [Waiting])
    case TryLock(g) =>
      if s.holder.Some? then Goto(s, g, Finished) else Goto(s.(holder := Some(g)), g, Deciding)
    case DecideUp(g, view, delta, needed) =>
      if needed == 0 then Goto(s, g, Unlocking)
      else
        var d := ScaleUpCount(cfg.policy, delta, |view|);
        Goto(s, g, if d.Some? then ScalingUp(Clamp(d.value, needed)) else Unlocking)
    case PickIdle(g, view, probes) =>
      var idle := IdleNodes(view, probes, cfg.percent);
      if idle == [] || CoolingDown(s.ctl, cfg.cooldowns, s.clock) then Goto(s, g, Unlocking)
      else Goto(s, g, Removing(idle[0].name, s.clock))
    case StartBatch(g, view) =>
      var n := BatchSize(s.ctl, cfg.cooldowns, s.pcs[g].count, view, s.clock);
      if n == 0 then Goto(s, g, Unlocking)
      else Goto(s.(ctl := Reserve(s.ctl, n)), g, Provisioning(s.clock, n, 0, 0))
    case CreateNode(g, ok, joins, lingers) =>
      var pc := s.pcs[g];
      var s1 := Goto(s.(ctl := Attempt(s.ctl, ok), strays := if lingers then s.strays + 1 else s.strays), g,
                     pc.(done := pc.done + 1, good := if ok then pc.good + 1 else pc.good));
      if joins.Some? then s1.(nodes := s1.nodes[joins.value := false], joined := s1.joined + 1) else s1
    case LateJoin(m) =>
      s.(nodes := s.nodes[m := false], joined := s.joined + 1, late := s.late + 1, strays := s.strays - 1)
    case SettleBatch(g) =>
      var pc := s.pcs[g];
      Goto(s.(ctl := Settle(s.ctl, cfg.cooldowns, pc.good, s.clock),
              batches := s.batches + [Batch(pc.start, s.clock, pc.total, pc.good)]), g, Settled(pc.total))
    case GiveBack(g) => Goto(s.(ctl := Release(s.ctl, s.pcs[g].total)), g, Unlocking)
    case CordonNode(g, ok) =>
      var pc := s.pcs[g];
      if ok && pc.node in s.nodes
      then Goto(s.(nodes := s.nodes[pc.node := true], cordons := s.cordons + 1), g, Draining(pc.node, pc.since))
      else Goto(s.(removals := s.removals + [RemovalTry(pc.since, s.clock, false, false)]), g, Unlocking)
    case EndRemoval(g, gone, ok) =>
      var pc := s.pcs[g];
      Goto(s.(nodes := if gone then s.nodes - {pc.node} else s.nodes,
              ctl := if ok then s.ctl.(lastDown := s.clock) else s.ctl,
              removals := s.removals + [RemovalTry(pc.since, s.clock, gone, ok)]), g, Unlocking)
    case Unlock(g) => Goto(s.(holder := None), g, Finished)
    case NodeCordoned(m) => s.(nodes := s.nodes[m := true])
    case NodeUncordoned(m) => s.(nodes := s.nodes[m := false])
    case NodeGone(m) => s.(nodes := s.nodes - {m})
    case NodeJoins(m) => s.(nodes := s.nodes[m := false], joined := s.joined + 1)
  }

  ghost predicate Initial(s: System) {
    && s.holder.None? && s.pcs == [] && s.ctl.inFlight == 0 && s.ctl.failures == 0
    && s.strays == 0 && s.joined == 0 && s.late == 0 && s.cordons == 0 && s.batches == [] && s.removals == []
  }

  /** `t` is reached from `s` by these steps, in this order. */
  ghost predicate Runs(cfg: Config, s: System, steps: seq<Step>, t: System)
    decreases |steps|
  {
    if steps == [] then s == t
    else Enabled(s, steps[0]) && Runs(cfg, Next(cfg, s, steps[0]), steps[1..], t)
  }

  /** Every step of the run meets `ok` in the state it is taken in. */
  ghost predicate Along(cfg: Config, s: System, steps: seq<Step>, ok: (Config, System, Step) -> bool)
    decreases |steps|
  {
    if steps == [] then true
    else Enabled(s, steps[0]) && ok(cfg, s, steps[0]) && Along(cfg, Next(cfg, s, steps[0]), steps[1..], ok)
  }

  ghost predicate Anything(cfg: Config, s: System, st: Step) { true }

  lemma {:induction false} RunsConcat(cfg: Config, s: System, a: seq<Step>, m: System, b: seq<Step>, t: System,
                                      ok: (Config, System, Step) -> bool)
    requires Runs(cfg, s, a, m) && Along(cfg, s, a, ok) && Runs(cfg, m, b, t) && Along(cfg, m, b, ok)
    ensures Runs(cfg, s, a + b, t) && Along(cfg, s, a + b, ok)
    decreases |a|
  {
    if a == [] {
      assert a + b == b;
    } else {
      RunsConcat(cfg, Next(cfg, s, a[0]), a[1..], m, b, t, ok);
      assert (a + b)[1..] == a[1..] + b;
    }
  }

  /** One step more. */
  lemma RunsSnoc(cfg: Config, s: System, a: seq<Step>, m: System, st: Step, ok: (Config, System, Step) -> bool)
    requires Runs(cfg, s, a, m) && Along(cfg, s, a, ok) && Enabled(m, st) && ok(cfg, m, st)
    ensures Runs(cfg, s, a + [st], Next(cfg, m, st)) && Along(cfg, s, a + [st], ok)
  {
    var t := Next(cfg, m, st);
    assert [st][1..] == [];
    assert Runs(cfg, t, [], t) && Along(cfg, t, [], ok);
    assert Runs(cfg, m, [st], t) && Along(cfg, m, [st], ok);
    RunsConcat(cfg, s, a, m, [st], t, ok);
  }

  // ------------------------------------------------------- one reconcile at a time

  predicate Inside(pc: Pc) { !pc.Waiting? && !pc.Finished? }

  /** What the goroutine past TryLock has reserved. */
  function Reserved(pc: Pc): int {
    match pc
    case Provisioning(_, total, _, _) => total
    case Settled(total) => total
    case _ => 0
  }

  function Held(s: System): Pc {
    if s.holder.Some? && s.holder.value < |s.pcs| then s.pcs[s.holder.value] else Finished
  }

  predicate WellFormed(pc: Pc) {
    && (pc.Provisioning? ==> pc.good <= pc.done <= pc.total && pc.total >= 1)
    && (pc.Settled? ==> pc.total >= 1)
  }

  /** At most one goroutine is past TryLock, namely the holder of the lock, and
      the in-flight counter is what it has reserved. */
  ghost predicate Exclusive(s: System) {
    && (s.holder.Some? ==> s.holder.value < |s.pcs|)
    && (forall g :: 0 <= g < |s.pcs| ==> (Inside(s.pcs[g]) <==> s.holder == Some(g)))
    && (forall g :: 0 <= g < |s.pcs| ==> WellFormed(s.pcs[g]))
    && s.ctl.inFlight == Reserved(Held(s))
  }

  /** The holder moves on inside. */
  lemma MoveInside(s: System, g: nat, pc: Pc, t: System)
    requires Exclusive(s) && g < |s.pcs| && Inside(s.pcs[g]) && Inside(pc) && WellFormed(pc)
    requires t.pcs == s.pcs[g := pc] && t.holder == s.holder && t.ctl.inFlight == Reserved(pc)
    ensures Exclusive(t)
  {
  }

  /** Steps of a goroutine that is past TryLock and stays so. */
  predicate OwnStep(st: Step) {
    || st.DecideUp? || st.PickIdle? || st.StartBatch? || st.CreateNode? || st.SettleBatch? || st.GiveBack?
    || st.CordonNode? || st.EndRemoval?
  }

  /** What an inside step makes of the goroutine's place and reservation. */
  lemma OwnMove(cfg: Config, s: System, st: Step, g: nat)
    requires Exclusive(s) && Enabled(s, st)
    requires OwnStep(st) && g == st.g
    ensures var t := Next(cfg, s, st);
            && g < |s.pcs| && Inside(s.pcs[g]) && s.holder == Some(g)
            && |t.pcs| == |s.pcs| && t.pcs == s.pcs[g := t.pcs[g]] && t.holder == s.holder
            && Inside(t.pcs[g]) && WellFormed(t.pcs[g]) && t.ctl.inFlight == Reserved(t.pcs[g])
  {
    assert WellFormed(s.pcs[g]);
    assert s.ctl.inFlight == Reserved(s.pcs[g]);
  }

  lemma StepExclusive(cfg: Config, s: System, st: Step)
    requires Exclusive(s) && Enabled(s, st)
    ensures Exclusive(Next(cfg, s, st))
  {
    if OwnStep(st) {
      OwnMove(cfg, s, st, st.g);
      MoveInside(s, st.g, Next(cfg, s, st).pcs[st.g], Next(cfg, s, st));
    }
  }

  lemma {:induction false} RunExclusive(cfg: Config, s: System, steps: seq<Step>, t: System)
    requires Exclusive(s) && Runs(cfg, s, steps, t)
    ensures Exclusive(t)
    decreases |steps|
  {
    if steps == [] {
    } else {
      StepExclusive(cfg, s, steps[0]);
      RunExclusive(cfg, Next(cfg, s, steps[0]), steps[1..], t);
    }
  }

  /** With any number of tick goroutines: no two are past TryLock, and the
      counter is what the one inside has reserved: its batch while it
      provisions, and zero whenever a batch size is computed. */
  lemma SingleReconcile(cfg: Config, s: System, steps: seq<Step>, t: System)
    requires Initial(s) && Runs(cfg, s, steps, t)
    ensures forall g, h :: 0 <= g < |t.pcs| && 0 <= h < |t.pcs| && Inside(t.pcs[g]) && Inside(t.pcs[h]) ==> g == h
    ensures t.ctl.inFlight == Reserved(Held(t)) >= 0
    ensures forall g :: 0 <= g < |t.pcs| && t.pcs[g].Provisioning? ==> t.ctl.inFlight == t.pcs[g].total
    ensures forall g :: 0 <= g < |t.pcs| && t.pcs[g].ScalingUp? ==> t.ctl.inFlight == 0
    ensures t.holder.None? ==> t.ctl.inFlight == 0
  {
    RunExclusive(cfg, s, steps, t);
    forall g, h | 0 <= g < |t.pcs| && 0 <= h < |t.pcs| && Inside(t.pcs[g]) && Inside(t.pcs[h])
      ensures g == h
    {
      assert t.holder == Some(g) && t.holder == Some(h);
    }
  }

  // ----------------------------------------------------------- what the steps see

  /** The view names every live node. */
  ghost predicate Shows(view: seq<NodeInfo>, nodes: map<string, bool>) {
    forall m :: m in nodes ==> exists i :: 0 <= i < |view| && view[i].name == m
  }

  /** Nodes arrive through CreateNode only, and the policy's view misses none
      that is live. */
  ghost predicate Covered(cfg: Config, s: System, st: Step) {
    !st.NodeJoins? && (st.DecideUp? ==> Shows(st.view, s.nodes))
  }

  /** Nobody uncordons a node, and the idle check sees the nodes as they are. */
  ghost predicate Exact(cfg: Config, s: System, st: Step) {
    && !st.NodeUncordoned?
    && (st.PickIdle? ==> forall i :: 0 <= i < |st.view| ==>
          st.view[i].name in s.nodes && st.view[i].unschedulable == s.nodes[st.view[i].name])
  }
}
