/** How often batches of CreateNode calls can start, over whole runs, and that
    a batch of the machine is the scale-up the controller object performs. */
module ProvisioningRate {
  import opened Wrappers
  import opened Cluster
  import opened ControllerSteps
  import opened ControllerSystem
  import opened PackingBounds
  import opened Reconciles
  import opened Estimation
  import Backoff
  import Controller

  // ------------------------------------------------------------------- history

  /** The consecutive failures after some batches: a batch with a success
      clears them, any other adds all its attempts. */
  function FailuresAfter(batches: seq<Batch>): nat {
    if batches == [] then 0
    else
      var last := batches[|batches| - 1];
      if last.successes > 0 then 0 else FailuresAfter(batches[..|batches| - 1]) + last.attempts
  }

  predicate Plausible(b: Batch) { b.attempts >= 1 && b.successes <= b.attempts && b.start <= b.end }

  lemma LastCounts(batches: seq<Batch>)
    requires batches != [] && Plausible(batches[|batches| - 1])
    ensures batches[|batches| - 1].successes > 0 || FailuresAfter(batches) > 0
  {
  }

  /** When the batch after these may start, at the earliest. */
  function Earliest(cd: Cooldowns, batches: seq<Batch>): int
    requires batches != [] && Plausible(batches[|batches| - 1])
  {
    var last := batches[|batches| - 1];
    LastCounts(batches);
    last.end + PauseAfter(cd, FailuresAfter(batches), last.successes)
  }

  /** Every batch waits for the pause after the batches before it. */
  ghost predicate Spaced(cd: Cooldowns, batches: seq<Batch>) {
    && (forall i :: 0 <= i < |batches| ==> Plausible(batches[i]))
    && (forall i :: 0 < i < |batches| ==> batches[i].start >= Earliest(cd, batches[..i]))
  }

  /** What ties the controller's counters to the history. */
  ghost predicate Recorded(cd: Cooldowns, s: System) {
    var pc := Held(s);
    && Spaced(cd, s.batches)
    && s.ctl.failures == FailuresAfter(s.batches) + (if pc.Provisioning? then pc.done - pc.good else 0)
    && (s.batches != [] ==> s.ctl.lastUp == Earliest(cd, s.batches) - cd.up)
    && (pc.Provisioning? ==> pc.start <= s.clock && (s.batches != [] ==> pc.start >= Earliest(cd, s.batches)))
  }

  lemma SpacedSnoc(cd: Cooldowns, batches: seq<Batch>, b: Batch)
    requires Spaced(cd, batches) && Plausible(b)
    requires batches != [] ==> b.start >= Earliest(cd, batches)
    ensures Spaced(cd, batches + [b])
  {
    var all := batches + [b];
    assert all[..|batches|] == batches;
    forall i: nat | 0 < i < |all|
      ensures all[i].start >= Earliest(cd, all[..i])
    {
      assert all[..i] == batches[..i];
      assert i == |batches| ==> batches[..i] == batches;
    }
  }

  lemma FailuresSnoc(cd: Cooldowns, batches: seq<Batch>, b: Batch)
    requires Plausible(b)
    ensures FailuresAfter(batches + [b]) == if b.successes > 0 then 0 else FailuresAfter(batches) + b.attempts
    ensures Earliest(cd, batches + [b])
         == b.end + PauseAfter(cd, FailuresAfter(batches) + b.attempts, b.successes)
  {
    assert (batches + [b])[..|batches|] == batches;
  }

  /** Settling a batch arranges the pause after it. */
  lemma SettleArranges(c: Ctl, cd: Cooldowns, successes: nat, now: int)
    requires successes > 0 || c.failures > 0
    ensures var after := Settle(c, cd, successes, now);
            && after.lastUp == now + PauseAfter(cd, c.failures, successes) - cd.up
            && after.failures == if successes > 0 then 0 else c.failures
  {
  }

  lemma PauseAfterSuccess(cd: Cooldowns, a: nat, b: nat, successes: nat)
    requires successes > 0 || (a == b && a > 0)
    ensures PauseAfter(cd, a, successes) == PauseAfter(cd, b, successes)
  {
  }

  /** What settling a batch does to the machine. */
  lemma SettleStep(cfg: Config, s: System, st: Step)
    requires Exclusive(s) && Enabled(s, st) && st.SettleBatch?
    ensures var t := Next(cfg, s, st);
            var pc := Held(s);
            && pc.Provisioning? && WellFormed(pc) && pc.done == pc.total && !Held(t).Provisioning?
            && t.batches == s.batches + [Batch(pc.start, s.clock, pc.total, pc.good)]
            && t.ctl == Settle(s.ctl, cfg.cooldowns, pc.good, s.clock)
  {
    assert s.holder == Some(st.g);
  }

  lemma SettleKeeps(cd: Cooldowns, c: Ctl, batches: seq<Batch>, b: Batch)
    requires Spaced(cd, batches) && Plausible(b)
    requires batches != [] ==> b.start >= Earliest(cd, batches)
    requires c.failures == FailuresAfter(batches) + (b.attempts - b.successes)
    ensures var after := Settle(c, cd, b.successes, b.end);
            && Spaced(cd, batches + [b])
            && after.failures == FailuresAfter(batches + [b])
            && after.lastUp == Earliest(cd, batches + [b]) - cd.up
  {
    SpacedSnoc(cd, batches, b);
    FailuresSnoc(cd, batches, b);
    SettleArranges(c, cd, b.successes, b.end);
    PauseAfterSuccess(cd, c.failures, FailuresAfter(batches) + b.attempts, b.successes);
  }

  lemma SettleRecorded(cfg: Config, s: System, st: Step)
    requires Exclusive(s) && Recorded(cfg.cooldowns, s) && Enabled(s, st) && st.SettleBatch?
    ensures Recorded(cfg.cooldowns, Next(cfg, s, st))
  {
    SettleStep(cfg, s, st);
    var pc := Held(s);
    SettleKeeps(cfg.cooldowns, s.ctl, s.batches, Batch(pc.start, s.clock, pc.total, pc.good));
  }

  /** The other steps of the holder keep the books. */
  lemma BatchStepRecorded(cfg: Config, s: System, st: Step)
    requires Exclusive(s) && Recorded(cfg.cooldowns, s) && Enabled(s, st)
    requires st.CreateNode? || st.StartBatch? || st.GiveBack?
    ensures Recorded(cfg.cooldowns, Next(cfg, s, st))
  {
    OwnMove(cfg, s, st, st.g);
    assert WellFormed(s.pcs[st.g]);
  }

  /** All other steps touch neither the counters nor a batch in progress. */
  lemma OtherStep(cfg: Config, s: System, st: Step)
    requires Exclusive(s) && Enabled(s, st)
    requires !st.SettleBatch? && !st.CreateNode? && !st.StartBatch? && !st.GiveBack?
    ensures var t := Next(cfg, s, st);
            && t.batches == s.batches && t.ctl.failures == s.ctl.failures && t.ctl.lastUp == s.ctl.lastUp
            && t.clock >= s.clock
            && (Held(t).Provisioning? || Held(s).Provisioning? ==> Held(s) == Held(t))
  {
    if OwnStep(st) {
      OwnMove(cfg, s, st, st.g);
    }
  }

  lemma StepRecorded(cfg: Config, s: System, st: Step)
    requires Exclusive(s) && Recorded(cfg.cooldowns, s) && Enabled(s, st)
    ensures Recorded(cfg.cooldowns, Next(cfg, s, st))
  {
    if st.SettleBatch? {
      SettleRecorded(cfg, s, st);
    } else if st.CreateNode? || st.StartBatch? || st.GiveBack? {
      BatchStepRecorded(cfg, s, st);
    } else {
      OtherStep(cfg, s, st);
    }
  }

  lemma {:induction false} RunRecorded(cfg: Config, s: System, steps: seq<Step>, t: System)
    requires Exclusive(s) && Recorded(cfg.cooldowns, s) && Runs(cfg, s, steps, t)
    ensures Recorded(cfg.cooldowns, t)
    decreases |steps|
  {
    if steps == [] {
    } else {
      StepExclusive(cfg, s, steps[0]);
      StepRecorded(cfg, s, steps[0]);
      RunRecorded(cfg, Next(cfg, s, steps[0]), steps[1..], t);
    }
  }

  /** Along every run the batches keep their distance; in particular the batch
      after one with a success starts no sooner than a full cooldown later. */
  lemma BatchesSpaced(cfg: Config, s: System, steps: seq<Step>, t: System)
    requires Initial(s) && Runs(cfg, s, steps, t)
    ensures Spaced(cfg.cooldowns, t.batches)
    ensures forall i :: 0 <= i < |t.batches| - 1 && t.batches[i].successes > 0 ==>
              t.batches[i + 1].start >= t.batches[i].end + cfg.cooldowns.up
  {
    RunRecorded(cfg, s, steps, t);
    forall i | 0 <= i < |t.batches| - 1 && t.batches[i].successes > 0
      ensures t.batches[i + 1].start >= t.batches[i].end + cfg.cooldowns.up
    {
      assert t.batches[i + 1].start >= Earliest(cfg.cooldowns, t.batches[..i + 1]);
    }
  }

  // ---------------------------------------------------------------------- rate

  /** The intended pauses after one, two, ..., n failures, added up. */
  function PausesUpTo(n: nat): nat {
    if n == 0 then 0 else PausesUpTo(n - 1) + Backoff.IdealPause(n)
  }

  lemma {:induction false} FailuresAddUp(batches: seq<Batch>, i: nat, j: nat)
    requires i <= j <= |batches|
    requires forall l :: i <= l < j ==> batches[l].successes == 0 && Plausible(batches[l])
    ensures FailuresAfter(batches[..j]) >= FailuresAfter(batches[..i]) + (j - i)
  {
    if i == j {
    } else {
      FailuresAddUp(batches, i, j - 1);
      assert batches[..j][..j - 1] == batches[..j - 1];
    }
  }

  lemma PausesStep(n: nat)
    requires n >= 1
    ensures PausesUpTo(n) == PausesUpTo(n - 1) + Backoff.IdealPause(n)
    ensures PausesUpTo(0) == 0
  {
  }

  /** Gaps of growing length between batches add up. */
  lemma {:induction false} GapsAddUp(batches: seq<Batch>, i: nat, j: nat)
    requires i < j < |batches|
    requires forall l :: i < l < j ==> batches[l].start <= batches[l].end
    requires forall l :: i < l <= j ==> batches[l].start >= batches[l - 1].end + Backoff.IdealPause(l - i)
    ensures batches[j].start - batches[i].end >= PausesUpTo(j - i)
  {
    PausesStep(j - i);
    if i == j - 1 {
    } else {
      GapsAddUp(batches, i, j - 1);
    }
  }

  /** From the end of the first failing batch to the start of the n-th the
      pauses add up, while no more than 61 attempts have failed. */
  lemma FailingBatchesApart(cd: Cooldowns, batches: seq<Batch>, i: nat, j: nat)
    requires Spaced(cd, batches) && i < j < |batches|
    requires forall l :: i <= l < j ==> batches[l].successes == 0
    requires FailuresAfter(batches[..j]) <= 61
    ensures batches[j].start - batches[i].end >= PausesUpTo(j - i)
  {
    forall l | i < l <= j
      ensures batches[l].start >= batches[l - 1].end + Backoff.IdealPause(l - i)
    {
      FailuresAddUp(batches, l, j);
      OnePause(cd, batches, i, l);
    }
    forall l | i < l < j
      ensures batches[l].start <= batches[l].end
    {
      assert Plausible(batches[l]);
    }
    GapsAddUp(batches, i, j);
  }

  lemma OnePause(cd: Cooldowns, batches: seq<Batch>, i: nat, j: nat)
    requires Spaced(cd, batches) && i < j < |batches|
    requires forall l :: i <= l < j ==> batches[l].successes == 0
    requires FailuresAfter(batches[..j]) <= 61
    ensures batches[j].start >= batches[j - 1].end + Backoff.IdealPause(j - i)
  {
    var failures := FailuresAfter(batches[..j]);
    assert batches[j].start >= Earliest(cd, batches[..j]);
    FailuresAddUp(batches, i, j);
    Backoff.PauseWithoutOverflow(failures);
    Backoff.IdealGrows(j - i, failures);
  }

  /** The provisioning rate over whole runs, whatever the cooldown is set to. */
  lemma ProvisioningRateBound(cfg: Config, s: System, steps: seq<Step>, t: System, i: nat, j: nat)
    requires Initial(s) && Runs(cfg, s, steps, t) && i < j < |t.batches|
    requires forall l :: i <= l < j ==> t.batches[l].successes == 0
    requires FailuresAfter(t.batches[..j]) <= 61
    ensures t.batches[j].start - t.batches[i].end >= PausesUpTo(j - i)
  {
    RunRecorded(cfg, s, steps, t);
    FailingBatchesApart(cfg.cooldowns, t.batches, i, j);
  }

  // --------------------------------------------------------------- the overflow

  /** The rate bound ends at 61 failures because the pause does: whatever the
      policy and the cooldown, 62 scale-ups in a row can fail, and the next one
      begins in the very moment the last one ended. */
  lemma OverflowStartsAtOnce(cfg: Config, s: System, view: seq<NodeInfo>, delta: ResourceDelta)
    returns (steps: seq<Step>, t: System)
    requires Initial(s) && Pressing(cfg, s, view, delta)
    ensures Runs(cfg, s, steps, t) && Along(cfg, s, steps, Covered)
    ensures |t.batches| == 62 && FailuresAfter(t.batches) == 62
    ensures Held(t).Provisioning? && Held(t).start == t.batches[61].end
  {
    var failing, m := FailingRounds(cfg, s, view, delta, 62);
    Backoff.PauseAt62();
    QuietRecorded(cfg, s, failing, m);
    var rest := StartsAtOnce(cfg, m, view, delta);
    t := Started(m);
    RunsConcat(cfg, s, failing, m, rest, t, Covered);
    steps := failing + rest;
  }

  /** Between batches the failure counter is what the history tells. */
  lemma QuietRecorded(cfg: Config, s: System, steps: seq<Step>, t: System)
    requires Initial(s) && Runs(cfg, s, steps, t) && t.holder.None?
    ensures t.ctl.failures == FailuresAfter(t.batches)
  {
    RunRecorded(cfg, s, steps, t);
  }

  /** A new goroutine has just begun a batch of one. */
  function Started(s: System): System {
    var m := Taken(s, 0, Provisioning(s.clock, 1, 0, 0));
    m.(ctl := Reserve(s.ctl, 1))
  }

  lemma StartsAtOnce(cfg: Config, s: System, view: seq<NodeInfo>, delta: ResourceDelta) returns (steps: seq<Step>)
    requires Exclusive(s) && s.holder.None? && Pressing(cfg, s, view, delta)
    requires !CoolingUp(s.ctl, cfg.cooldowns, s.clock)
    ensures Runs(cfg, s, steps, Started(s)) && Along(cfg, s, steps, Covered)
  {
    var decide := DecideRound(cfg, s, view, delta, 0);
    var u := Taken(s, 0, ScalingUp(1));
    var start := StartBatch(|s.pcs|, view);
    RunsSnoc(cfg, s, decide, u, start, Covered);
    steps := decide + [start];
    assert Next(cfg, u, start).pcs == Started(s).pcs;
  }

  // ----------------------------------------------------- every batch of every run

  /** The machine's decision and its batch are the controller object's: whatever
      views they see, a decision followed at once by the start of the batch makes
      as many CreateNode calls as `ScaleUpFor` does. */
  lemma DecisionMatches(cfg: Config, s: System, g: nat, r: Report, views: Controller.Views)
    requires Enabled(s, DecideUp(g, views.decide, r.delta, r.nodesNeeded))
    ensures var u := Next(cfg, s, DecideUp(g, views.decide, r.delta, r.nodesNeeded));
            var n := Controller.AutoscalerController.Wanted(cfg.policy, s.ctl, cfg.cooldowns, r, views, s.clock);
            && (!u.pcs[g].ScalingUp? ==> n == 0)
            && (u.pcs[g].ScalingUp? ==>
                  var t := Next(cfg, u, StartBatch(g, views.count));
                  if n == 0 then t.pcs[g] == Unlocking else t.pcs[g] == Provisioning(s.clock, n, 0, 0))
  {
  }

  /** How far the batch of goroutine `g` has got, begun at `start` with `n`
      calls to make, and what it has made of the controller's fields `c`. */
  ghost predicate InBatch(cd: Cooldowns, c: Ctl, start: int, n: nat, g: nat, s: System) {
    g < |s.pcs| &&
    match s.pcs[g]
    case Provisioning(since, total, done, good) =>
      since == start && total == n && s.ctl == c.(inFlight := c.inFlight + n, failures := s.ctl.failures)
      && s.ctl.failures == c.failures + done - good
    case Settled(total) =>
      total == n && s.batches != [] && Outcome(cd, c, start, n, s.batches[|s.batches| - 1], Release(s.ctl, n))
    case Unlocking => s.batches != [] && Outcome(cd, c, start, n, s.batches[|s.batches| - 1], s.ctl)
    case Finished => true
    case _ => false
  }

  /** What a whole batch makes of the fields, going by its entry in the history. */
  ghost predicate Outcome(cd: Cooldowns, c: Ctl, start: int, n: nat, b: Batch, after: Ctl) {
    && b.start == start && b.attempts == n && b.successes <= n
    && after == Release(Settle(Reserve(c, n).(failures := c.failures + (n - b.successes)), cd, b.successes, b.end), n)
  }

  lemma StepInBatch(cfg: Config, s: System, st: Step, c: Ctl, start: int, n: nat, g: nat)
    requires Exclusive(s) && Enabled(s, st) && InBatch(cfg.cooldowns, c, start, n, g, s)
    ensures InBatch(cfg.cooldowns, c, start, n, g, Next(cfg, s, st))
  {
    if OwnStep(st) {
      OwnMove(cfg, s, st, st.g);
      assert WellFormed(s.pcs[st.g]);
    }
  }

  lemma {:induction false} RunInBatch(cfg: Config, s: System, steps: seq<Step>, t: System, c: Ctl, start: int, n: nat,
                                      g: nat)
    requires Exclusive(s) && Runs(cfg, s, steps, t) && InBatch(cfg.cooldowns, c, start, n, g, s)
    ensures InBatch(cfg.cooldowns, c, start, n, g, t)
    decreases |steps|
  {
    if steps == [] {
    } else {
      StepExclusive(cfg, s, steps[0]);
      StepInBatch(cfg, s, steps[0], c, start, n, g);
      RunInBatch(cfg, Next(cfg, s, steps[0]), steps[1..], t, c, start, n, g);
    }
  }

  /** However the other goroutines, the clock and the cluster step in between:
      once a goroutine that began a batch has given its reservation back, the
      controller's fields are what `HandleScaleUp` makes of those at the start,
      for any outcomes with as many successes as the history tells. */
  lemma EveryBatch(cfg: Config, s: System, g: nat, view: seq<NodeInfo>, steps: seq<Step>, t: System)
    requires Exclusive(s) && g < |s.pcs| && s.pcs[g].ScalingUp?
    requires BatchSize(s.ctl, cfg.cooldowns, s.pcs[g].count, view, s.clock) > 0
    requires Runs(cfg, Next(cfg, s, StartBatch(g, view)), steps, t) && g < |t.pcs| && t.pcs[g].Unlocking?
    ensures var n := BatchSize(s.ctl, cfg.cooldowns, s.pcs[g].count, view, s.clock);
            && t.batches != []
            && var b := t.batches[|t.batches| - 1];
               && b.start == s.clock && b.attempts == n
               && forall outcome: nat -> bool :: Successes(outcome, n) == b.successes ==>
                    t.ctl == BatchEffect(s.ctl, cfg.cooldowns, n, outcome, b.end)
  {
    var n := BatchSize(s.ctl, cfg.cooldowns, s.pcs[g].count, view, s.clock);
    StepExclusive(cfg, s, StartBatch(g, view));
    RunInBatch(cfg, Next(cfg, s, StartBatch(g, view)), steps, t, s.ctl, s.clock, n, g);
    forall outcome: nat -> bool | Successes(outcome, n) == t.batches[|t.batches| - 1].successes
      ensures t.ctl == BatchEffect(s.ctl, cfg.cooldowns, n, outcome, t.batches[|t.batches| - 1].end)
    {
      AttemptsCount(Reserve(s.ctl, n), outcome, n);
    }
  }
}
