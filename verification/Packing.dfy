/** The estimator's packing of sorted pods into bins, as functions on values:
    first the best fitting existing node, then the best fitting opened template
    node, then a new template node. */
module Packing {
  import opened Wrappers
  import opened Cluster
  import opened Sums

  const MIB: nat := 1024 * 1024

  /** Free capacity of a node, with what its scheduling rule looks at. */
  datatype Bin = Bin(cpu: int, mem: int, labels: Labels, taints: seq<Taint>)

  /** The single worker template. */
  datatype Template = Template(cpu: nat, mem: nat, labels: Labels, taints: seq<Taint>) {
    function Empty(): Bin { Bin(cpu, mem, labels, taints) }
  }

  predicate Fits(p: PodInfo, b: Bin) {
    Admits(p, b.labels, b.taints) && b.cpu >= p.cpu && b.mem >= p.mem
  }

  ghost predicate FitsNone(p: PodInfo, bins: seq<Bin>) {
    forall i :: 0 <= i < |bins| ==> !Fits(p, bins[i])
  }

  /** What a bin would have left: milli-cores plus whole mebibytes. */
  function Remaining(p: PodInfo, b: Bin): int {
    b.cpu - p.cpu + (b.mem - p.mem) / MIB
  }

  /** The first of the fitting bins that leave the least. */
  ghost predicate IsBestFit(p: PodInfo, bins: seq<Bin>, best: Option<nat>) {
    match best
    case None => FitsNone(p, bins)
    case Some(b) =>
      && b < |bins| && Fits(p, bins[b])
      && (forall i :: 0 <= i < |bins| && Fits(p, bins[i]) ==> Remaining(p, bins[b]) <= Remaining(p, bins[i]))
      && (forall i :: 0 <= i < b && Fits(p, bins[i]) ==> Remaining(p, bins[b]) < Remaining(p, bins[i]))
  }

  /** The best of the first `n` bins. */
  function BestUpTo(p: PodInfo, bins: seq<Bin>, n: nat): (best: Option<nat>)
    requires n <= |bins|
    ensures best.Some? ==> best.value < n
  {
    if n == 0 then None
    else
      var best := BestUpTo(p, bins, n - 1);
      if Fits(p, bins[n - 1]) && (best.None? || Remaining(p, bins[n - 1]) < Remaining(p, bins[best.value]))
      then Some(n - 1)
      else best
  }

  function BestFit(p: PodInfo, bins: seq<Bin>): (best: Option<nat>)
    ensures best.Some? ==> best.value < |bins|
  {
    BestUpTo(p, bins, |bins|)
  }

  lemma {:induction false} BestUpToFinds(p: PodInfo, bins: seq<Bin>, n: nat)
    requires n <= |bins|
    ensures match BestUpTo(p, bins, n)
            case None => forall i :: 0 <= i < n ==> !Fits(p, bins[i])
            case Some(b) =>
              && Fits(p, bins[b])
              && (forall i :: 0 <= i < n && Fits(p, bins[i]) ==> Remaining(p, bins[b]) <= Remaining(p, bins[i]))
              && (forall i :: 0 <= i < b && Fits(p, bins[i]) ==> Remaining(p, bins[b]) < Remaining(p, bins[i]))
  {
    if n == 0 {
    } else {
      BestUpToFinds(p, bins, n - 1);
    }
  }

  /** The search finds the best fit, and only one answer is: a search in any
      other order that meets `IsBestFit` names the same bin. */
  lemma BestFitFinds(p: PodInfo, bins: seq<Bin>, other: Option<nat>)
    ensures IsBestFit(p, bins, BestFit(p, bins))
    ensures IsBestFit(p, bins, other) ==> other == BestFit(p, bins)
  {
    BestUpToFinds(p, bins, |bins|);
  }

  /** The same in the bins' own figures: the chosen one has room and leaves the
      least, counted in milli-cores plus whole mebibytes; if none is chosen, none
      has room. */
  lemma BestFitExactly(p: PodInfo, bins: seq<Bin>)
    ensures forall i :: 0 <= i < |bins| && Admits(p, bins[i].labels, bins[i].taints)
                        && p.cpu <= bins[i].cpu && p.mem <= bins[i].mem ==>
              && BestFit(p, bins).Some?
              && var b := bins[BestFit(p, bins).value];
                 b.cpu - p.cpu + (b.mem - p.mem) / 1048576 <= bins[i].cpu - p.cpu + (bins[i].mem - p.mem) / 1048576
    ensures BestFit(p, bins).Some? ==>
              var b := bins[BestFit(p, bins).value];
              Admits(p, b.labels, b.taints) && p.cpu <= b.cpu && p.mem <= b.mem
  {
    BestFitFinds(p, bins, None);
    forall i | 0 <= i < |bins| && Admits(p, bins[i].labels, bins[i].taints)
               && p.cpu <= bins[i].cpu && p.mem <= bins[i].mem
      ensures Fits(p, bins[i])
    {
    }
  }

  /** Where a pod ended up. */
  datatype Outcome = Existing(i: nat) | Opened(j: nat) | TooBig | Inadmissible

  datatype Bins = Bins(existing: seq<Bin>, added: seq<Bin>)

  function Choose(t: Template, s: Bins, p: PodInfo): Outcome {
    match BestFit(p, s.existing)
    case Some(i) => Existing(i)
    case None =>
      match BestFit(p, s.added)
      case Some(j) => Opened(j)
      case None =>
        if p.cpu > t.cpu || p.mem > t.mem then TooBig
        else if !Admits(p, t.labels, t.taints) then Inadmissible
        else Opened(|s.added|)
  }

  function Shrink(b: Bin, p: PodInfo): Bin {
    b.(cpu := b.cpu - p.cpu, mem := b.mem - p.mem)
  }

  predicate Legal(s: Bins, o: Outcome) {
    match o
    case Existing(i) => i < |s.existing|
    case Opened(j) => j <= |s.added|
    case _ => true
  }

  function Apply(t: Template, s: Bins, p: PodInfo, o: Outcome): Bins
    requires Legal(s, o)
  {
    match o
    case Existing(i) => s.(existing := s.existing[i := Shrink(s.existing[i], p)])
    case Opened(j) =>
      if j < |s.added| then s.(added := s.added[j := Shrink(s.added[j], p)])
      else s.(added := s.added + [Shrink(t.Empty(), p)])
    case _ => s
  }

  /** The bins and the outcomes after packing some pods. */
  datatype Run = Run(bins: Bins, outcomes: seq<Outcome>)

  function Pack(t: Template, s0: Bins, ps: seq<PodInfo>): (r: Run)
    ensures |r.outcomes| == |ps|
  {
    if ps == [] then Run(s0, [])
    else
      var n := |ps| - 1;
      var r := Pack(t, s0, ps[..n]);
      var o := Choose(t, r.bins, ps[n]);
      Run(Apply(t, r.bins, ps[n], o), r.outcomes + [o])
  }

  /** A run over a prefix of the pods is a prefix of the run. */
  lemma {:induction false} PackPrefix(t: Template, s0: Bins, ps: seq<PodInfo>, n: nat)
    requires n <= |ps|
    ensures Pack(t, s0, ps[..n]).outcomes == Pack(t, s0, ps).outcomes[..n]
  {
    if n == |ps| {
      assert ps[..n] == ps;
    } else {
      PackPrefix(t, s0, ps[..|ps| - 1], n);
      assert ps[..|ps| - 1][..n] == ps[..n];
    }
  }

  // ---------------------------------------------------------------- soundness

  ghost predicate Clean(s: Bins) {
    && s.added == []
    && forall i :: 0 <= i < |s.existing| ==> s.existing[i].cpu >= 0 && s.existing[i].mem >= 0
  }

  /** `b` is what is left of `full` after the pods whose outcome is `o`. */
  ghost predicate Accounts(full: Bin, b: Bin, ps: seq<PodInfo>, os: seq<Outcome>, o: Outcome)
    requires |ps| == |os|
  {
    && b.labels == full.labels && b.taints == full.taints
    && full.cpu == b.cpu + Tally(CpuOf, ps, os, o) && b.cpu >= 0
    && full.mem == b.mem + Tally(MemOf, ps, os, o) && b.mem >= 0
  }

  /** Every bin is accounted for exactly. */
  ghost predicate Conserved(t: Template, s0: Bins, ps: seq<PodInfo>, r: Run)
    requires |r.outcomes| == |ps|
  {
    && |r.bins.existing| == |s0.existing|
    && (forall i :: 0 <= i < |s0.existing| ==>
          Accounts(s0.existing[i], r.bins.existing[i], ps, r.outcomes, Existing(i)))
    && (forall j :: 0 <= j < |r.bins.added| ==>
          Accounts(t.Empty(), r.bins.added[j], ps, r.outcomes, Opened(j)))
  }

  /** Every pod sits in a bin that exists and admits it, or was rejected for
      a reason that holds. */
  ghost predicate Placed(t: Template, s0: Bins, p: PodInfo, r: Run, o: Outcome) {
    match o
    case Existing(i) => i < |s0.existing| && Admits(p, s0.existing[i].labels, s0.existing[i].taints)
    case Opened(j) => j < |r.bins.added| && Admits(p, t.labels, t.taints)
    case TooBig => p.cpu > t.cpu || p.mem > t.mem
    case Inadmissible => p.cpu <= t.cpu && p.mem <= t.mem && !Admits(p, t.labels, t.taints)
  }

  ghost predicate AllPlaced(t: Template, s0: Bins, ps: seq<PodInfo>, r: Run)
    requires |r.outcomes| == |ps|
  {
    forall k :: 0 <= k < |ps| ==> Placed(t, s0, ps[k], r, r.outcomes[k])
  }

  /** What a step does: the chosen bin exists and has room for the pod. */
  ghost predicate Sensible(t: Template, s: Bins, p: PodInfo, o: Outcome) {
    match o
    case Existing(i) => i < |s.existing| && Fits(p, s.existing[i])
    case Opened(j) => if j < |s.added| then Fits(p, s.added[j]) else j == |s.added| && Fits(p, t.Empty())
    case TooBig => p.cpu > t.cpu || p.mem > t.mem
    case Inadmissible => p.cpu <= t.cpu && p.mem <= t.mem && !Admits(p, t.labels, t.taints)
  }

  lemma ChoiceSensible(t: Template, s: Bins, p: PodInfo)
    ensures Sensible(t, s, p, Choose(t, s, p))
    ensures !Choose(t, s, p).Existing? ==> FitsNone(p, s.existing)
    ensures Choose(t, s, p) == Opened(|s.added|) ==> FitsNone(p, s.added)
  {
    BestFitFinds(p, s.existing, None);
    BestFitFinds(p, s.added, None);
  }

  lemma AccountsSnoc(full: Bin, b: Bin, ps: seq<PodInfo>, os: seq<Outcome>, o: Outcome)
    requires |ps| == |os| > 0
    requires Accounts(full, b, ps[..|ps| - 1], os[..|ps| - 1], o)
    ensures o != os[|ps| - 1] ==> Accounts(full, b, ps, os, o)
    ensures var p := ps[|ps| - 1];
            o == os[|ps| - 1] && b.cpu >= p.cpu && b.mem >= p.mem ==> Accounts(full, Shrink(b, p), ps, os, o)
  {
  }

  lemma OpenedAbsent(t: Template, s0: Bins, ps: seq<PodInfo>, r: Run, j: nat)
    requires |r.outcomes| == |ps| && AllPlaced(t, s0, ps, r) && j >= |r.bins.added|
    ensures Accounts(t.Empty(), t.Empty(), ps, r.outcomes, Opened(j))
  {
    forall k | 0 <= k < |ps|
      ensures r.outcomes[k] != Opened(j)
    {
      assert Placed(t, s0, ps[k], r, r.outcomes[k]);
    }
    TallyAbsent(CpuOf, ps, r.outcomes, Opened(j));
    TallyAbsent(MemOf, ps, r.outcomes, Opened(j));
  }

  /** One sensible step keeps the accounts. */
  lemma StepConserves(t: Template, s0: Bins, ps: seq<PodInfo>, q: Run, o: Outcome)
    requires |ps| > 0 && |q.outcomes| == |ps| - 1
    requires Conserved(t, s0, ps[..|ps| - 1], q) && AllPlaced(t, s0, ps[..|ps| - 1], q)
    requires Sensible(t, q.bins, ps[|ps| - 1], o)
    ensures Conserved(t, s0, ps, Run(Apply(t, q.bins, ps[|ps| - 1], o), q.outcomes + [o]))
  {
    var n := |ps| - 1;
    var os := q.outcomes + [o];
    var r := Run(Apply(t, q.bins, ps[n], o), os);
    assert os[..n] == q.outcomes;
    forall i | 0 <= i < |s0.existing|
      ensures Accounts(s0.existing[i], r.bins.existing[i], ps, os, Existing(i))
    {
      AccountsSnoc(s0.existing[i], q.bins.existing[i], ps, os, Existing(i));
    }
    forall j | 0 <= j < |r.bins.added|
      ensures Accounts(t.Empty(), r.bins.added[j], ps, os, Opened(j))
    {
      if j < |q.bins.added| {
        AccountsSnoc(t.Empty(), q.bins.added[j], ps, os, Opened(j));
      } else {
        OpenedAbsent(t, s0, ps[..n], q, j);
        AccountsSnoc(t.Empty(), t.Empty(), ps, os, Opened(j));
      }
    }
  }

  lemma StepPlaces(t: Template, s0: Bins, ps: seq<PodInfo>, q: Run, o: Outcome)
    requires |ps| > 0 && |q.outcomes| == |ps| - 1
    requires Conserved(t, s0, ps[..|ps| - 1], q) && AllPlaced(t, s0, ps[..|ps| - 1], q)
    requires Sensible(t, q.bins, ps[|ps| - 1], o)
    ensures AllPlaced(t, s0, ps, Run(Apply(t, q.bins, ps[|ps| - 1], o), q.outcomes + [o]))
  {
    var n := |ps| - 1;
    var r := Run(Apply(t, q.bins, ps[n], o), q.outcomes + [o]);
    forall k | 0 <= k < |ps|
      ensures Placed(t, s0, ps[k], r, r.outcomes[k])
    {
      if k < n {
        assert Placed(t, s0, ps[..n][k], q, q.outcomes[k]);
      }
    }
  }

  /** Packing is sound: no bin is overfilled, each one's capacity equals what
      is left plus what was put in, and every pod sits where it may. */
  lemma {:induction false} PackSound(t: Template, s0: Bins, ps: seq<PodInfo>)
    requires Clean(s0)
    ensures var r := Pack(t, s0, ps);
            Conserved(t, s0, ps, r) && AllPlaced(t, s0, ps, r)
  {
    if ps == [] {
    } else {
      var n := |ps| - 1;
      PackSound(t, s0, ps[..n]);
      var q := Pack(t, s0, ps[..n]);
      var o := Choose(t, q.bins, ps[n]);
      ChoiceSensible(t, q.bins, ps[n]);
      StepConserves(t, s0, ps, q, o);
      StepPlaces(t, s0, ps, q, o);
    }
  }

  /** `b` has no more room than `a` had. */
  ghost predicate NoRoomier(a: Bins, b: Bins) {
    && |a.existing| == |b.existing| && |a.added| <= |b.added|
    && (forall i :: 0 <= i < |a.existing| ==> Tighter(a.existing[i], b.existing[i]))
    && (forall j :: 0 <= j < |a.added| ==> Tighter(a.added[j], b.added[j]))
  }

  predicate Tighter(a: Bin, b: Bin) {
    b.labels == a.labels && b.taints == a.taints && b.cpu <= a.cpu && b.mem <= a.mem
  }

  /** Capacity only ever shrinks from one pod to the next. */
  lemma {:induction false} RoomShrinks(t: Template, s0: Bins, ps: seq<PodInfo>, n: nat)
    requires n <= |ps|
    ensures NoRoomier(Pack(t, s0, ps[..n]).bins, Pack(t, s0, ps).bins)
  {
    if n == |ps| {
      assert ps[..n] == ps;
    } else {
      var m := |ps| - 1;
      RoomShrinks(t, s0, ps[..m], n);
      assert ps[..m][..n] == ps[..n];
      var q := Pack(t, s0, ps[..m]);
      StepShrinks(t, q.bins, ps[m], Choose(t, q.bins, ps[m]));
      NoRoomierTransitive(Pack(t, s0, ps[..n]).bins, q.bins, Pack(t, s0, ps).bins);
    }
  }

  lemma NoRoomierTransitive(a: Bins, b: Bins, c: Bins)
    requires NoRoomier(a, b) && NoRoomier(b, c)
    ensures NoRoomier(a, c)
  {
  }

  lemma StepShrinks(t: Template, s: Bins, p: PodInfo, o: Outcome)
    requires Legal(s, o)
    ensures NoRoomier(s, Apply(t, s, p, o))
  {
  }

  /** Local optimality at the end of a run: nothing that left the existing
      nodes would fit an existing node's leftover, and nothing rejected would
      fit any leftover at all, nor an empty template node. */
  lemma LocallyOptimal(t: Template, s0: Bins, ps: seq<PodInfo>, k: nat)
    requires k < |ps| && s0.added == []
    ensures var r := Pack(t, s0, ps);
            && (!r.outcomes[k].Existing? ==> FitsNone(ps[k], r.bins.existing))
            && (r.outcomes[k].TooBig? || r.outcomes[k].Inadmissible? ==>
                  !Fits(ps[k], t.Empty()) && FitsNone(ps[k], r.bins.added))
  {
    OutcomeChosen(t, s0, ps, k);
    ChoiceSensible(t, Pack(t, s0, ps[..k]).bins, ps[k]);
    RoomShrinks(t, s0, ps, k);
    AddedFromTemplate(t, s0, ps);
  }

  lemma OutcomeChosen(t: Template, s0: Bins, ps: seq<PodInfo>, k: nat)
    requires k < |ps|
    ensures Pack(t, s0, ps).outcomes[k] == Choose(t, Pack(t, s0, ps[..k]).bins, ps[k])
  {
    PackPrefix(t, s0, ps, k + 1);
    PackLast(t, s0, ps[..k + 1], ps[..k]);
  }

  lemma PackLast(t: Template, s0: Bins, ps: seq<PodInfo>, front: seq<PodInfo>)
    requires |ps| > 0 && front == ps[..|ps| - 1]
    ensures Pack(t, s0, ps).outcomes[|ps| - 1] == Choose(t, Pack(t, s0, front).bins, ps[|ps| - 1])
  {
  }

  lemma {:induction false} AddedFromTemplate(t: Template, s0: Bins, ps: seq<PodInfo>)
    requires s0.added == []
    ensures forall j :: 0 <= j < |Pack(t, s0, ps).bins.added| ==> Tighter(t.Empty(), Pack(t, s0, ps).bins.added[j])
  {
    if ps == [] {
    } else {
      AddedFromTemplate(t, s0, ps[..|ps| - 1]);
    }
  }

  // ------------------------------------------------------------- conservation

  datatype Kind = OnExisting | OnTemplate | Rejected

  function KindOf(o: Outcome): Kind {
    match o
    case Existing(_) => OnExisting
    case Opened(_) => OnTemplate
    case _ => Rejected
  }

  /** The pods with an outcome of one kind, in order. */
  function Select(ps: seq<PodInfo>, os: seq<Outcome>, kind: Kind): seq<PodInfo>
    requires |ps| == |os|
  {
    if ps == [] then []
    else
      var n := |ps| - 1;
      Select(ps[..n], os[..n], kind) + if KindOf(os[n]) == kind then [ps[n]] else []
  }

  lemma SumSnoc(w: PodInfo -> int, ps: seq<PodInfo>, p: PodInfo)
    ensures Sum(w, ps + [p]) == Sum(w, ps) + w(p)
  {
    assert (ps + [p])[..|ps|] == ps;
  }

  /** The three kinds split the pods: every weight adds up. */
  lemma {:induction false} KindsPartition(w: PodInfo -> int, ps: seq<PodInfo>, os: seq<Outcome>)
    requires |ps| == |os|
    ensures Sum(w, ps)
         == Sum(w, Select(ps, os, OnExisting)) + Sum(w, Select(ps, os, OnTemplate)) + Sum(w, Select(ps, os, Rejected))
    ensures |ps| == |Select(ps, os, OnExisting)| + |Select(ps, os, OnTemplate)| + |Select(ps, os, Rejected)|
  {
    if ps == [] {
    } else {
      var n := |ps| - 1;
      KindsPartition(w, ps[..n], os[..n]);
      SumSnoc(w, Select(ps[..n], os[..n], KindOf(os[n])), ps[n]);
      forall kind: Kind | kind != KindOf(os[n])
        ensures Select(ps, os, kind) == Select(ps[..n], os[..n], kind)
      {
      }
    }
  }
}
