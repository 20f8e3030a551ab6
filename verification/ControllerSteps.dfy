/** The controller's own state and the small steps that change it. Times are
    nanoseconds. */
module ControllerSteps {
  import opened Cluster
  import Backoff

  datatype Ctl = Ctl(lastUp: int, lastDown: int, inFlight: int, failures: nat)

  datatype Cooldowns = Cooldowns(up: int, down: int)

  predicate CoolingUp(c: Ctl, cd: Cooldowns, now: int) { now - c.lastUp < cd.up }

  predicate CoolingDown(c: Ctl, cd: Cooldowns, now: int) { now - c.lastDown < cd.down }

  function Unready(nodes: seq<NodeInfo>): nat {
    if nodes == [] then 0
    else Unready(nodes[..|nodes| - 1]) + if nodes[|nodes| - 1].ready then 0 else 1
  }

  /** What is left to provision after nodes in flight and nodes not ready yet. */
  function ToProvision(c: Ctl, count: int, nodes: seq<NodeInfo>): int {
    count - (c.inFlight + Unready(nodes))
  }

  function Reserve(c: Ctl, n: int): Ctl { c.(inFlight := c.inFlight + n) }

  function Release(c: Ctl, n: int): Ctl { c.(inFlight := c.inFlight - n) }

  /** One CreateNode call. */
  function Attempt(c: Ctl, ok: bool): Ctl {
    if ok then c else c.(failures := c.failures + 1)
  }

  /** The end of a batch: the cooldown starts, or the failure pause is arranged
      by moving the last scale-up into the past. */
  function Settle(c: Ctl, cd: Cooldowns, successes: nat, now: int): Ctl {
    if successes > 0 then c.(lastUp := now, failures := 0)
    else if c.failures > 0 then c.(lastUp := now + (-cd.up + Backoff.Pause(c.failures)))
    else c
  }

  function Attempts(c: Ctl, outcome: nat -> bool, n: nat): Ctl {
    if n == 0 then c else Attempt(Attempts(c, outcome, n - 1), outcome(n - 1))
  }

  function Successes(outcome: nat -> bool, n: nat): (k: nat)
    ensures k <= n
  {
    if n == 0 then 0 else Successes(outcome, n - 1) + if outcome(n - 1) then 1 else 0
  }

  /** The number of CreateNode calls a scale-up makes. */
  function BatchSize(c: Ctl, cd: Cooldowns, count: int, nodes: seq<NodeInfo>, now: int): nat {
    if CoolingUp(c, cd, now) || ToProvision(c, count, nodes) <= 0 then 0 else ToProvision(c, count, nodes)
  }

  /** A whole batch of `n` CreateNode calls, ended at `to`. */
  function BatchEffect(c: Ctl, cd: Cooldowns, n: nat, outcome: nat -> bool, to: int): Ctl {
    if n == 0 then c
    else Release(Settle(Attempts(Reserve(c, n), outcome, n), cd, Successes(outcome, n), to), n)
  }

  /** The positions of the nodes that are not ready. */
  function UnreadyAt(nodes: seq<NodeInfo>): set<int> {
    set i | 0 <= i < |nodes| && !nodes[i].ready
  }

  lemma UnreadyAtSnoc(nodes: seq<NodeInfo>)
    requires nodes != []
    ensures var n := |nodes| - 1;
            && n !in UnreadyAt(nodes[..n])
            && UnreadyAt(nodes) == UnreadyAt(nodes[..n]) + if nodes[n].ready then {} else {n}
  {
    var n := |nodes| - 1;
    forall i
      ensures i in UnreadyAt(nodes) <==> i in UnreadyAt(nodes[..n]) || (i == n && !nodes[n].ready)
    {
    }
  }

  lemma {:induction false} UnreadyExactly(nodes: seq<NodeInfo>)
    ensures Unready(nodes) == |UnreadyAt(nodes)| == |set i | 0 <= i < |nodes| && !nodes[i].ready|
  {
    if nodes == [] {
      assert UnreadyAt(nodes) == {};
    } else {
      UnreadyExactly(nodes[..|nodes| - 1]);
      UnreadyAtSnoc(nodes);
    }
  }

  lemma {:induction false} SuccessesExactly(outcome: nat -> bool, n: nat)
    ensures Successes(outcome, n) > 0 <==> exists i: nat :: i < n && outcome(i)
    ensures Successes(outcome, n) == n <==> forall i: nat :: i < n ==> outcome(i)
  {
    if n == 0 {
    } else {
      SuccessesExactly(outcome, n - 1);
    }
  }

  lemma {:induction false} AttemptsCount(c: Ctl, outcome: nat -> bool, n: nat)
    ensures Attempts(c, outcome, n) == c.(failures := c.failures + n - Successes(outcome, n))
  {
    if n == 0 {
    } else {
      AttemptsCount(c, outcome, n - 1);
    }
  }

  /** The pause that a batch leaves behind. */
  function PauseAfter(cd: Cooldowns, failures: nat, successes: nat): int
    requires failures > 0 || successes > 0
  {
    if successes > 0 then cd.up else Backoff.Pause(failures)
  }

  /** What a batch leaves behind: the reservation is given back, a success
      clears the failure count and anything else adds every attempt to it, and
      the next batch may start exactly when the pause is over, whatever the
      cooldown is. */
  lemma BatchLeaves(c: Ctl, cd: Cooldowns, n: nat, outcome: nat -> bool, to: int)
    requires n > 0
    ensures var good := Successes(outcome, n);
            var after := BatchEffect(c, cd, n, outcome, to);
            && after.inFlight == c.inFlight && after.lastDown == c.lastDown
            && after.failures == (if good > 0 then 0 else c.failures + n)
            && forall now :: !CoolingUp(after, cd, now) <==> now - to >= PauseAfter(cd, c.failures + n, good)
  {
    AttemptsCount(Reserve(c, n), outcome, n);
  }

  lemma BatchKeepsInFlight(c: Ctl, cd: Cooldowns, n: nat, outcome: nat -> bool, to: int)
    ensures BatchEffect(c, cd, n, outcome, to).inFlight == c.inFlight
  {
    if n > 0 {
      BatchLeaves(c, cd, n, outcome, to);
    }
  }

  /** After a batch without success the controller keeps the intended pause
      exactly while the failure count is at most 61, or 63; otherwise it may
      start again at once. */
  lemma PauseKeptIff(c: Ctl, cd: Cooldowns, now: int)
    requires c.failures > 0
    ensures var after := Settle(c, cd, 0, now);
            && ((forall t :: !CoolingUp(after, cd, t) ==> t - now >= Backoff.IdealPause(c.failures))
                <==> c.failures <= 61 || c.failures == 63)
            && (!(c.failures <= 61 || c.failures == 63) ==> !CoolingUp(after, cd, now))
  {
    var after := Settle(c, cd, 0, now);
    Backoff.PauseExact(c.failures);
    assert !CoolingUp(after, cd, now + Backoff.Pause(c.failures));
    if !(c.failures <= 61 || c.failures == 63) {
      Backoff.IdealGrows(1, c.failures);
      Backoff.SmallPowers();
      assert !CoolingUp(after, cd, now);
    }
  }
}
