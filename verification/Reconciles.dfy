/** Whole stretches of the controller machine: one scale-up of a single node,
    one batch with nothing but time in between, one removal. */
module Reconciles {
  import opened Wrappers
  import opened Cluster
  import opened PackingBounds
  import opened ScalingPolicy
  import opened ControllerSteps
  import opened ControllerSystem
  import Backoff

  // ---------------------------------------------------------------------- names

  /** A name for each number, longer than all of the given ones. */
  function Fresh(least: nat, i: nat): string {
    seq(least + i, _ => 'n')
  }

  lemma {:induction false} Longer(names: set<string>) returns (least: nat)
    ensures forall m :: m in names ==> |m| < least
    decreases |names|
  {
    if names == {} {
      least := 0;
    } else {
      var m :| m in names;
      least := Longer(names - {m});
      least := if |m| < least then least else |m| + 1;
    }
  }

  lemma FreshNames(names: set<string>) returns (least: nat)
    ensures forall i: nat :: Fresh(least, i) !in names
    ensures forall i: nat, j: nat :: i != j ==> Fresh(least, i) != Fresh(least, j)
  {
    least := Longer(names);
    forall i: nat, j: nat | i != j
      ensures Fresh(least, i) != Fresh(least, j)
    {
      assert |Fresh(least, i)| == least + i && |Fresh(least, j)| == least + j;
    }
    forall i: nat
      ensures Fresh(least, i) !in names
    {
      assert |Fresh(least, i)| == least + i;
    }
  }

  // ------------------------------------------------------------------- one batch

  /** How the CreateNode calls of a batch go: which succeed, under which names
      their nodes join, how long each takes, and whether a failing call leaves
      a container behind. */
  datatype Plan = Plan(outcome: nat -> bool, names: nat -> string, takes: nat -> nat, stray: bool)

  function Lasts(plan: Plan, n: nat): nat {
    if n == 0 then 0 else Lasts(plan, n - 1) + plan.takes(n - 1)
  }

  function Grown(nodes: map<string, bool>, plan: Plan, n: nat): map<string, bool> {
    if n == 0 then nodes
    else if plan.outcome(n - 1) then Grown(nodes, plan, n - 1)[plan.names(n - 1) := false]
    else Grown(nodes, plan, n - 1)
  }

  /** The names are new, for the nodes and for each other. */
  ghost predicate NewNames(nodes: map<string, bool>, plan: Plan) {
    && (forall i: nat :: plan.names(i) !in nodes)
    && forall i: nat, j: nat :: i != j ==> plan.names(i) != plan.names(j)
  }

  lemma {:induction false} GrownNew(nodes: map<string, bool>, plan: Plan, n: nat, i: nat)
    requires NewNames(nodes, plan) && i >= n
    ensures plan.names(i) !in Grown(nodes, plan, n)
  {
    if n == 0 {
    } else {
      GrownNew(nodes, plan, n - 1, i);
      assert plan.names(i) != plan.names(n - 1);
    }
  }

  lemma {:induction false} GrownSize(nodes: map<string, bool>, plan: Plan, n: nat)
    requires NewNames(nodes, plan)
    ensures |Grown(nodes, plan, n).Keys| == |nodes.Keys| + Successes(plan.outcome, n)
  {
    if n == 0 {
    } else {
      GrownSize(nodes, plan, n - 1);
      GrownNew(nodes, plan, n - 1, n - 1);
      OneKeyMore(Grown(nodes, plan, n - 1), plan.names(n - 1));
    }
  }

  lemma OneKeyMore(nodes: map<string, bool>, m: string)
    requires m !in nodes
    ensures |nodes[m := false].Keys| == |nodes.Keys| + 1
  {
    assert nodes[m := false].Keys == nodes.Keys + {m};
  }

  function Call(g: nat, plan: Plan, i: nat): Step {
    if plan.outcome(i) then CreateNode(g, true, Some(plan.names(i)), false)
    else CreateNode(g, false, None, plan.stray)
  }

  function Calls(g: nat, plan: Plan, n: nat): (steps: seq<Step>)
    ensures forall i :: 0 <= i < |steps| ==> !steps[i].DecideUp?
  {
    if n == 0 then [] else Calls(g, plan, n - 1) + [Elapse(plan.takes(n - 1))] + [Call(g, plan, n - 1)]
  }

  /** What the calls change beside the controller's own fields. */
  function Outside(s: System, plan: Plan, n: nat): System {
    s.(clock := s.clock + Lasts(plan, n),
       nodes := Grown(s.nodes, plan, n),
       joined := s.joined + Successes(plan.outcome, n),
       strays := s.strays + if plan.stray then n - Successes(plan.outcome, n) else 0)
  }

  function Called(s: System, g: nat, plan: Plan, n: nat): System
    requires g < |s.pcs| && s.pcs[g].Provisioning?
  {
    Goto(Outside(s, plan, n).(ctl := Attempts(s.ctl, plan.outcome, n)), g,
         s.pcs[g].(done := n, good := Successes(plan.outcome, n)))
  }

  lemma {:induction false} CallsRun(cfg: Config, s: System, g: nat, plan: Plan, n: nat)
    requires g < |s.pcs| && s.pcs[g].Provisioning? && s.pcs[g].done == 0 && s.pcs[g].good == 0 && n <= s.pcs[g].total
    requires NewNames(s.nodes, plan)
    ensures Runs(cfg, s, Calls(g, plan, n), Called(s, g, plan, n))
    ensures Along(cfg, s, Calls(g, plan, n), Covered)
  {
    if n == 0 {
      assert s.pcs[g := s.pcs[g]] == s.pcs;
      assert Called(s, g, plan, 0) == s;
    } else {
      CallsRun(cfg, s, g, plan, n - 1);
      OneCall(cfg, s, g, plan, n);
      var steps := TwoMore(cfg, s, Calls(g, plan, n - 1), Called(s, g, plan, n - 1),
                           Elapse(plan.takes(n - 1)), Call(g, plan, n - 1));
    }
  }

  lemma OneCall(cfg: Config, s: System, g: nat, plan: Plan, n: nat)
    requires g < |s.pcs| && s.pcs[g].Provisioning? && 1 <= n <= s.pcs[g].total && NewNames(s.nodes, plan)
    ensures var u := Next(cfg, Called(s, g, plan, n - 1), Elapse(plan.takes(n - 1)));
            && Enabled(u, Call(g, plan, n - 1)) && Next(cfg, u, Call(g, plan, n - 1)) == Called(s, g, plan, n)
  {
    GrownNew(s.nodes, plan, n - 1, n - 1);
    var u := Next(cfg, Called(s, g, plan, n - 1), Elapse(plan.takes(n - 1)));
    assert Next(cfg, u, Call(g, plan, n - 1)).pcs == Called(s, g, plan, n).pcs;
  }

  /** What is left of a batch once its reservation is given back. */
  function Done(cfg: Config, s: System, g: nat, plan: Plan, n: nat): System
    requires g < |s.pcs|
  {
    var u := Outside(s, plan, n);
    Goto(u.(ctl := BatchEffect(s.ctl, cfg.cooldowns, n, plan.outcome, u.clock),
            batches := s.batches + [Batch(s.clock, u.clock, n, Successes(plan.outcome, n))]), g, Unlocking)
  }

  /** The first step of a batch. */
  function Begun(cfg: Config, s: System, g: nat, n: nat): System
    requires g < |s.pcs|
  {
    Goto(s.(ctl := Reserve(s.ctl, n)), g, Provisioning(s.clock, n, 0, 0))
  }

  /** The last two. */
  lemma BatchEnds(cfg: Config, s: System, g: nat, plan: Plan, n: nat)
    requires g < |s.pcs| && n >= 1
    ensures var m := Called(Begun(cfg, s, g, n), g, plan, n);
            && Enabled(m, SettleBatch(g)) && Enabled(Next(cfg, m, SettleBatch(g)), GiveBack(g))
            && Next(cfg, Next(cfg, m, SettleBatch(g)), GiveBack(g)) == Done(cfg, s, g, plan, n)
  {
    var m := Called(Begun(cfg, s, g, n), g, plan, n);
    var t := Next(cfg, Next(cfg, m, SettleBatch(g)), GiveBack(g));
    assert t.pcs == Done(cfg, s, g, plan, n).pcs;
  }

  /** Whatever the calls' outcomes, names and durations: a goroutine that only
      time interrupts changes the controller's fields as `HandleScaleUp` does. */
  lemma SoloBatch(cfg: Config, s: System, g: nat, view: seq<NodeInfo>, plan: Plan) returns (steps: seq<Step>)
    requires g < |s.pcs| && s.pcs[g].ScalingUp? && NewNames(s.nodes, plan)
    requires BatchSize(s.ctl, cfg.cooldowns, s.pcs[g].count, view, s.clock) > 0
    ensures var n := BatchSize(s.ctl, cfg.cooldowns, s.pcs[g].count, view, s.clock);
            Runs(cfg, s, steps, Done(cfg, s, g, plan, n)) && Along(cfg, s, steps, Covered)
    ensures forall i :: 0 <= i < |steps| ==> !steps[i].DecideUp?
  {
    var n := BatchSize(s.ctl, cfg.cooldowns, s.pcs[g].count, view, s.clock);
    var s1 := Begun(cfg, s, g, n);
    RunsSnoc(cfg, s, [], s, StartBatch(g, view), Covered);
    var s2 := Called(s1, g, plan, n);
    CallsRun(cfg, s1, g, plan, n);
    RunsConcat(cfg, s, [] + [StartBatch(g, view)], s1, Calls(g, plan, n), s2, Covered);
    BatchEnds(cfg, s, g, plan, n);
    steps := TwoMore(cfg, s, [] + [StartBatch(g, view)] + Calls(g, plan, n), s2, SettleBatch(g), GiveBack(g));
  }

  lemma TwoMore(cfg: Config, s: System, front: seq<Step>, m: System, a: Step, b: Step) returns (steps: seq<Step>)
    requires Runs(cfg, s, front, m) && Along(cfg, s, front, Covered)
    requires Enabled(m, a) && Covered(cfg, m, a) && Enabled(Next(cfg, m, a), b) && Covered(cfg, Next(cfg, m, a), b)
    ensures Runs(cfg, s, steps, Next(cfg, Next(cfg, m, a), b)) && Along(cfg, s, steps, Covered)
    ensures steps == front + [a] + [b]
  {
    RunsSnoc(cfg, s, front, m, a, Covered);
    RunsSnoc(cfg, s, front + [a], Next(cfg, m, a), b, Covered);
    steps := front + [a] + [b];
  }

  // ---------------------------------------------------------- one scale-up by one

  /** How long the scale-up cooldown still lasts. */
  function Remaining(c: Ctl, cd: Cooldowns, now: int): (dt: nat)
    ensures !CoolingUp(c, cd, now + dt)
  {
    if CoolingUp(c, cd, now) then c.lastUp + cd.up - now else 0
  }

  /** A complete view of ready nodes, and a deficit on which the policy scales up. */
  ghost predicate Pressing(cfg: Config, s: System, view: seq<NodeInfo>, delta: ResourceDelta) {
    Shows(view, s.nodes) && Unready(view) == 0 && ScaleUpCount(cfg.policy, delta, |view|).Some?
  }

  /** Some time has passed, and the latest goroutine holds the lock. */
  function Taken(s: System, dt: nat, pc: Pc): System {
    s.(clock := s.clock + dt, pcs := s.pcs + [pc], holder := Some(|s.pcs|))
  }

  /** A tick fires and its goroutine gets the lock. */
  lemma LockRound(cfg: Config, s: System, ok: (Config, System, Step) -> bool) returns (steps: seq<Step>)
    requires s.holder.None? && ok(cfg, s, Tick) && ok(cfg, Next(cfg, s, Tick), TryLock(|s.pcs|))
    ensures Runs(cfg, s, steps, Taken(s, 0, Deciding)) && Along(cfg, s, steps, ok)
  {
    var s1 := Next(cfg, s, Tick);
    RunsSnoc(cfg, s, [], s, Tick, ok);
    RunsSnoc(cfg, s, [] + [Tick], s1, TryLock(|s.pcs|), ok);
    steps := [] + [Tick] + [TryLock(|s.pcs|)];
    assert Next(cfg, s1, TryLock(|s.pcs|)) == Taken(s, 0, Deciding);
  }

  /** After some time a tick fires, its goroutine gets the lock and decides to
      add one node. */
  lemma DecideRound(cfg: Config, s: System, view: seq<NodeInfo>, delta: ResourceDelta, dt: nat)
    returns (steps: seq<Step>)
    requires s.holder.None? && Pressing(cfg, s, view, delta)
    ensures Runs(cfg, s, steps, Taken(s, dt, ScalingUp(1))) && Along(cfg, s, steps, Covered)
  {
    var decide := DecideUp(|s.pcs|, view, delta, 1);
    var s1 := s.(clock := s.clock + dt);
    RunsSnoc(cfg, s, [], s, Elapse(dt), Covered);
    var lock := LockRound(cfg, s1, Covered);
    var s2 := Taken(s, dt, Deciding);
    RunsConcat(cfg, s, [] + [Elapse(dt)], s1, lock, s2, Covered);
    RunsSnoc(cfg, s, [] + [Elapse(dt)] + lock, s2, decide, Covered);
    steps := [] + [Elapse(dt)] + lock + [decide];
    DecideOne(cfg, s, view, delta, dt);
  }

  lemma DecideOne(cfg: Config, s: System, view: seq<NodeInfo>, delta: ResourceDelta, dt: nat)
    requires ScaleUpCount(cfg.policy, delta, |view|).Some?
    ensures Next(cfg, Taken(s, dt, Deciding), DecideUp(|s.pcs|, view, delta, 1)) == Taken(s, dt, ScalingUp(1))
  {
    assert Next(cfg, Taken(s, dt, Deciding), DecideUp(|s.pcs|, view, delta, 1)).pcs == Taken(s, dt, ScalingUp(1)).pcs;
  }

  /** A reconcile that makes one CreateNode call at once, as soon as the
      cooldown allows. */
  function Round(cfg: Config, s: System, plan: Plan): System {
    var dt := Remaining(s.ctl, cfg.cooldowns, s.clock);
    var t := Done(cfg, Taken(s, dt, ScalingUp(1)), |s.pcs|, plan, 1);
    Goto(t.(holder := None), |s.pcs|, Finished)
  }

  lemma RoundRuns(cfg: Config, s: System, view: seq<NodeInfo>, delta: ResourceDelta, plan: Plan)
    returns (steps: seq<Step>)
    requires Exclusive(s) && s.holder.None? && Pressing(cfg, s, view, delta) && NewNames(s.nodes, plan)
    ensures Runs(cfg, s, steps, Round(cfg, s, plan)) && Along(cfg, s, steps, Covered)
  {
    var g, dt := |s.pcs|, Remaining(s.ctl, cfg.cooldowns, s.clock);
    var m := Taken(s, dt, ScalingUp(1));
    steps := DecideRound(cfg, s, view, delta, dt);
    var batch := RoundBatch(cfg, s, view, plan);
    RunsConcat(cfg, s, steps, m, batch, Round(cfg, s, plan), Covered);
    steps := steps + batch;
  }

  /** The batch of a round, and the release of the lock. */
  lemma RoundBatch(cfg: Config, s: System, view: seq<NodeInfo>, plan: Plan) returns (steps: seq<Step>)
    requires Exclusive(s) && s.holder.None? && Unready(view) == 0 && NewNames(s.nodes, plan)
    ensures var m := Taken(s, Remaining(s.ctl, cfg.cooldowns, s.clock), ScalingUp(1));
            Runs(cfg, m, steps, Round(cfg, s, plan)) && Along(cfg, m, steps, Covered)
  {
    var g := |s.pcs|;
    var m := Taken(s, Remaining(s.ctl, cfg.cooldowns, s.clock), ScalingUp(1));
    assert BatchSize(m.ctl, cfg.cooldowns, 1, view, m.clock) == 1;
    var batch := SoloBatch(cfg, m, g, view, plan);
    RunsSnoc(cfg, m, batch, Done(cfg, m, g, plan, 1), Unlock(g), Covered);
    steps := batch + [Unlock(g)];
  }

  /** Every call fails, at once, and leaves its container running. */
  function Failing(least: nat): Plan {
    Plan((i: nat) => false, (i: nat) => Fresh(least, i), (i: nat) => 0, true)
  }

  /** Any number of scale-ups in a row that all fail. */
  lemma {:induction false} FailingRounds(cfg: Config, s: System, view: seq<NodeInfo>, delta: ResourceDelta, k: nat)
    returns (steps: seq<Step>, t: System)
    requires Exclusive(s) && s.holder.None? && Pressing(cfg, s, view, delta)
    ensures Runs(cfg, s, steps, t) && Along(cfg, s, steps, Covered)
    ensures Exclusive(t) && t.holder.None?
    ensures t.nodes == s.nodes && t.late == s.late && t.strays == s.strays + k && t.ctl.failures == s.ctl.failures + k
    ensures |t.batches| == |s.batches| + k && t.batches[..|s.batches|] == s.batches
    ensures k > 0 ==> t.batches[|t.batches| - 1].end == t.clock
                      && t.ctl.lastUp == t.clock + (-cfg.cooldowns.up + Backoff.Pause(t.ctl.failures))
  {
    if k == 0 {
      steps, t := [], s;
    } else {
      var front, m := FailingRounds(cfg, s, view, delta, k - 1);
      var last;
      last, t := OneFailure(cfg, m, view, delta);
      RunsConcat(cfg, s, front, m, last, t, Covered);
      steps := front + last;
    }
  }

  lemma OneFailure(cfg: Config, s: System, view: seq<NodeInfo>, delta: ResourceDelta)
    returns (steps: seq<Step>, t: System)
    requires Exclusive(s) && s.holder.None? && Pressing(cfg, s, view, delta)
    ensures Runs(cfg, s, steps, t) && Along(cfg, s, steps, Covered) && Exclusive(t)
    ensures t.holder.None? && t.nodes == s.nodes && t.late == s.late && t.strays == s.strays + 1
    ensures t.ctl.failures == s.ctl.failures + 1
    ensures t.ctl.lastUp == t.clock + (-cfg.cooldowns.up + Backoff.Pause(t.ctl.failures))
    ensures t.batches == s.batches + [Batch(t.clock, t.clock, 1, 0)]
  {
    var least := FreshNames(s.nodes.Keys);
    var plan := Failing(least);
    steps := RoundRuns(cfg, s, view, delta, plan);
    t := Round(cfg, s, plan);
    RunExclusive(cfg, s, steps, t);
    FailedRound(cfg, s, plan);
  }

  lemma FailedRound(cfg: Config, s: System, plan: Plan)
    requires Exclusive(s) && s.holder.None? && plan.stray && !plan.outcome(0) && plan.takes(0) == 0
    ensures var t := Round(cfg, s, plan);
            && t.holder.None? && t.nodes == s.nodes && t.late == s.late && t.strays == s.strays + 1
            && t.ctl.failures == s.ctl.failures + 1
            && t.ctl.lastUp == t.clock + (-cfg.cooldowns.up + Backoff.Pause(t.ctl.failures))
            && t.batches == s.batches + [Batch(t.clock, t.clock, 1, 0)]
  {
    assert Successes(plan.outcome, 1) == 0 && Lasts(plan, 1) == 0 && Grown(s.nodes, plan, 1) == s.nodes;
    assert Attempts(Reserve(s.ctl, 1), plan.outcome, 1) == Attempt(Reserve(s.ctl, 1), false);
  }
}
