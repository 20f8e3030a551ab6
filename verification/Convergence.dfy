/** Estimating again after the needed nodes have joined asks for nothing more:
    nodes opened one by one and nodes that were there from the start lead to
    the same choices, ties included. */
module Convergence {
  import opened Wrappers
  import opened Cluster
  import opened Packing
  import opened PackingBounds

  function Repeat(b: Bin, n: nat): (bs: seq<Bin>)
    ensures |bs| == n && forall i :: 0 <= i < n ==> bs[i] == b
  {
    seq(n, i => b)
  }

  /** A template node that has become existing node `base + j`. */
  function Moved(o: Outcome, base: nat): Outcome {
    if o.Opened? then Existing(base + o.j) else o
  }

  function AllMoved(os: seq<Outcome>, base: nat): (ms: seq<Outcome>)
    ensures |ms| == |os| && forall i :: 0 <= i < |os| ==> ms[i] == Moved(os[i], base)
  {
    seq(|os|, i requires 0 <= i < |os| => Moved(os[i], base))
  }

  /** The opened nodes, then the ones still empty, all among the existing. */
  function Provisioned(t: Template, existing: seq<Bin>, added: seq<Bin>, k: nat): Bins
    requires |added| <= k
  {
    Bins(existing + added + Repeat(t.Empty(), k - |added|), [])
  }

  lemma {:induction false} SamePrefix(p: PodInfo, a: seq<Bin>, b: seq<Bin>, n: nat)
    requires n <= |a| && n <= |b| && forall i :: 0 <= i < n ==> a[i] == b[i]
    ensures BestUpTo(p, a, n) == BestUpTo(p, b, n)
  {
    if n == 0 {
    } else {
      SamePrefix(p, a, b, n - 1);
    }
  }

  function Shifted(best: Option<nat>, base: nat): Option<nat> {
    if best.Some? then Some(base + best.value) else None
  }

  /** Bins that do not fit, put in front, only shift the choice. */
  lemma {:induction false} ShiftedBin(p: PodInfo, existing: seq<Bin>, all: seq<Bin>, added: seq<Bin>, n: nat)
    requires BestFit(p, existing).None? && n <= |added|
    requires |all| >= |existing| + |added|
    requires forall i :: 0 <= i < |existing| ==> all[i] == existing[i]
    requires forall j :: 0 <= j < |added| ==> all[|existing| + j] == added[j]
    ensures BestUpTo(p, all, |existing| + n) == Shifted(BestUpTo(p, added, n), |existing|)
  {
    if n == 0 {
      SamePrefix(p, all, existing, |existing|);
    } else {
      ShiftedBin(p, existing, all, added, n - 1);
      assert all[|existing| + (n - 1)] == added[n - 1];
    }
  }

  /** Empty nodes, put behind, are chosen only if nothing in front fits, and
      then the first of them. */
  lemma {:induction false} EmptyLast(t: Template, p: PodInfo, all: seq<Bin>, base: nat, n: nat)
    requires base <= n <= |all| && forall i :: base <= i < |all| ==> all[i] == t.Empty()
    requires var best := BestUpTo(p, all, base);
             best.Some? ==> Remaining(p, all[best.value]) <= Remaining(p, t.Empty())
    ensures BestUpTo(p, all, n) ==
            if BestUpTo(p, all, base).Some? then BestUpTo(p, all, base)
            else if Fits(p, t.Empty()) && n > base then Some(base)
            else None
  {
    if n == base {
    } else {
      EmptyLast(t, p, all, base, n - 1);
    }
  }

  lemma NothingFits(p: PodInfo, existing: seq<Bin>)
    requires FitsNone(p, existing)
    ensures BestFit(p, existing).None?
  {
    BestFitFinds(p, existing, None);
  }

  lemma ProvisionedAt(t: Template, existing: seq<Bin>, added: seq<Bin>, k: nat)
    requires |added| <= k
    ensures var all := Provisioned(t, existing, added, k).existing;
            && |all| == |existing| + k
            && (forall i :: 0 <= i < |existing| ==> all[i] == existing[i])
            && (forall j :: 0 <= j < |added| ==> all[|existing| + j] == added[j])
            && forall i :: |existing| + |added| <= i < |all| ==> all[i] == t.Empty()
  {
  }

  /** What best fit picks of the opened nodes leaves no more than an empty one would. */
  lemma BestIsTighter(t: Template, added: seq<Bin>, p: PodInfo)
    requires forall j :: 0 <= j < |added| ==> Tighter(t.Empty(), added[j])
    ensures var best := BestFit(p, added);
            best.Some? ==> best.value < |added| && Remaining(p, added[best.value]) <= Remaining(p, t.Empty())
  {
    if BestFit(p, added).Some? {
      MoreRemains(t, added[BestFit(p, added).value], p);
    }
  }

  /** Among provisioned nodes the best fit is the opened node that lazy opening
      picks, else the first empty one. */
  lemma SameBin(t: Template, existing: seq<Bin>, added: seq<Bin>, k: nat, p: PodInfo)
    requires |added| <= k && FitsNone(p, existing)
    requires forall j :: 0 <= j < |added| ==> Tighter(t.Empty(), added[j])
    ensures BestFit(p, Provisioned(t, existing, added, k).existing) ==
            match BestFit(p, added)
            case Some(j) => Some(|existing| + j)
            case None => if Fits(p, t.Empty()) && |added| < k then Some(|existing| + |added|) else None
  {
    NothingFits(p, existing);
    ProvisionedAt(t, existing, added, k);
    BestIsTighter(t, added, p);
    SameBinIn(t, existing, added, Provisioned(t, existing, added, k).existing, p);
  }

  lemma SameBinIn(t: Template, existing: seq<Bin>, added: seq<Bin>, all: seq<Bin>, p: PodInfo)
    requires BestFit(p, existing).None? && |all| >= |existing| + |added|
    requires forall i :: 0 <= i < |existing| ==> all[i] == existing[i]
    requires forall j :: 0 <= j < |added| ==> all[|existing| + j] == added[j]
    requires forall i :: |existing| + |added| <= i < |all| ==> all[i] == t.Empty()
    requires var best := BestFit(p, added);
             best.Some? ==> best.value < |added| && Remaining(p, added[best.value]) <= Remaining(p, t.Empty())
    ensures BestFit(p, all) ==
            match BestFit(p, added)
            case Some(j) => Some(|existing| + j)
            case None => if Fits(p, t.Empty()) && |all| > |existing| + |added| then Some(|existing| + |added|) else None
  {
    ShiftedBin(p, existing, all, added, |added|);
    EmptyLast(t, p, all, |existing| + |added|, |all|);
  }

  lemma MoreRemains(t: Template, b: Bin, p: PodInfo)
    requires Tighter(t.Empty(), b)
    ensures Remaining(p, b) <= Remaining(p, t.Empty())
  {
  }

  lemma SameChoice(t: Template, existing: seq<Bin>, added: seq<Bin>, k: nat, p: PodInfo)
    requires |added| <= k && FitsNone(p, existing)
    requires forall j :: 0 <= j < |added| ==> Tighter(t.Empty(), added[j])
    requires Choose(t, Bins(existing, added), p) == Opened(|added|) ==> |added| < k
    ensures var o := Choose(t, Bins(existing, added), p);
            && !o.Existing?
            && Choose(t, Provisioned(t, existing, added, k), p) == Moved(o, |existing|)
  {
    SameBin(t, existing, added, k, p);
    assert FitsNone(p, existing);
    BestFitFinds(p, existing, None);
  }

  lemma SameEffect(t: Template, existing: seq<Bin>, added: seq<Bin>, k: nat, p: PodInfo, o: Outcome)
    requires |added| <= k && !o.Existing? && Legal(Bins(existing, added), o)
    requires o == Opened(|added|) ==> |added| < k
    ensures var next := Apply(t, Bins(existing, added), p, o);
            && next.existing == existing && |next.added| <= k
            && Legal(Provisioned(t, existing, added, k), Moved(o, |existing|))
            && Apply(t, Provisioned(t, existing, added, k), p, Moved(o, |existing|))
               == Provisioned(t, existing, next.added, k)
  {
    var s := Provisioned(t, existing, added, k);
    var next := Apply(t, Bins(existing, added), p, o);
    if o.Opened? {
      var after := Apply(t, s, p, Moved(o, |existing|)).existing;
      var goal := Provisioned(t, existing, next.added, k).existing;
      assert |after| == |goal|;
      forall i | 0 <= i < |after|
        ensures after[i] == goal[i]
      {
      }
      assert after == goal;
    }
  }

  /** The simulation, pod by pod. */
  lemma {:induction false} Simulation(t: Template, s0: Bins, ps: seq<PodInfo>, k: nat)
    requires s0.added == []
    requires forall i :: 0 <= i < |ps| ==> FitsNone(ps[i], s0.existing)
    requires NodesNeeded(t, s0, ps) <= k
    ensures var r := Pack(t, s0, ps);
            && r.bins.existing == s0.existing
            && Pack(t, Provisioned(t, s0.existing, [], k), ps)
               == Run(Provisioned(t, s0.existing, r.bins.added, k), AllMoved(r.outcomes, |s0.existing|))
  {
    var s1 := Provisioned(t, s0.existing, [], k);
    if ps == [] {
      assert AllMoved([], |s0.existing|) == [];
    } else {
      var n := |ps| - 1;
      var q := Pack(t, s0, ps[..n]);
      PackUnfold(t, s0, ps, ps[..n]);
      PackUnfold(t, s1, ps, ps[..n]);
      RoomShrinks(t, s0, ps, n);
      Simulation(t, s0, ps[..n], k);
      AddedFromTemplate(t, s0, ps[..n]);
      var o := Choose(t, q.bins, ps[n]);
      assert q.bins == Bins(s0.existing, q.bins.added);
      SameChoice(t, s0.existing, q.bins.added, k, ps[n]);
      SameEffect(t, s0.existing, q.bins.added, k, ps[n], o);
      assert AllMoved(q.outcomes + [o], |s0.existing|)
          == AllMoved(q.outcomes, |s0.existing|) + [Moved(o, |s0.existing|)];
    }
  }

  /** Once the needed nodes have joined, empty, the same pods need no further
      node, leave no deficit, and land in the same bins. */
  lemma Converges(t: Template, s0: Bins, ps: seq<PodInfo>, s1: Bins)
    requires s0.added == []
    requires forall i :: 0 <= i < |ps| ==> FitsNone(ps[i], s0.existing)
    requires s1 == Bins(s0.existing + Repeat(t.Empty(), NodesNeeded(t, s0, ps)), [])
    ensures NodesNeeded(t, s1, ps) == 0 && Delta(t, s1, ps) == ResourceDelta(0, 0)
    ensures Pack(t, s1, ps).outcomes == AllMoved(Pack(t, s0, ps).outcomes, |s0.existing|)
  {
    var k := NodesNeeded(t, s0, ps);
    Simulation(t, s0, ps, k);
    assert s1 == Provisioned(t, s0.existing, [], k) by {
      assert s0.existing + [] == s0.existing;
    }
    NothingAdded(t, s1, ps);
  }

  lemma NothingAdded(t: Template, s: Bins, ps: seq<PodInfo>)
    requires Pack(t, s, ps).bins.added == []
    ensures NodesNeeded(t, s, ps) == 0 && Delta(t, s, ps) == ResourceDelta(0, 0)
  {
  }
}
