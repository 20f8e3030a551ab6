/** The effective request of a pod: containers and sidecars run together, init
    containers run alone beforehand, and the pod's overhead comes on top. */
module PodResources {
  import opened Wrappers
  import opened Sums

  type ResourceList = Option<map<string, nat>>

  const CPU := "cpu"
  const MEMORY := "memory"
  const RESTART_ALWAYS := "Always"

  datatype Container = Container(requests: ResourceList, restartPolicy: Option<string>)

  datatype PodSpec = PodSpec(containers: seq<Container>, initContainers: seq<Container>, overhead: ResourceList)

  predicate Restartable(c: Container) {
    c.restartPolicy == Some(RESTART_ALWAYS)
  }

  /** A nil list or a missing entry requests nothing. */
  function Amount(list: ResourceList, name: string): nat {
    if list.Some? && name in list.value then list.value[name] else 0
  }

  // ------------------------------------------------------------ specification

  function Request(name: string): Container -> int {
    (c: Container) => Amount(c.requests, name)
  }

  function SidecarRequest(name: string): Container -> int {
    (c: Container) => if Restartable(c) then Amount(c.requests, name) else 0
  }

  /** What runs at the same time once the pod is up. */
  function Steady(spec: PodSpec, name: string): int {
    Sum(Request(name), spec.containers) + Sum(SidecarRequest(name), spec.initContainers)
  }

  /** `r` is the least amount that covers the steady state and each plain init
      container alone, with the overhead on top. */
  ghost predicate IsEffective(spec: PodSpec, name: string, r: int) {
    var base := r - Amount(spec.overhead, name);
    && base >= Steady(spec, name)
    && (forall c :: c in spec.initContainers && !Restartable(c) ==> base >= Amount(c.requests, name))
    && (base == Steady(spec, name)
        || exists c :: c in spec.initContainers && !Restartable(c) && base == Amount(c.requests, name))
  }

  lemma EffectiveUnique(spec: PodSpec, name: string, a: int, b: int)
    requires IsEffective(spec, name, a) && IsEffective(spec, name, b)
    ensures a == b
  {
  }

  /** The largest plain init container above a floor. */
  function Peak(floor: int, inits: seq<Container>, name: string): int {
    if inits == [] then floor
    else
      var n := |inits| - 1;
      Raised(Peak(floor, inits[..n], name), inits[n], name)
  }

  function Raised(best: int, c: Container, name: string): int {
    if !Restartable(c) && Amount(c.requests, name) > best then Amount(c.requests, name) else best
  }

  lemma {:induction false} PeakCovers(floor: int, inits: seq<Container>, name: string)
    ensures Peak(floor, inits, name) >= floor
    ensures forall c :: c in inits && !Restartable(c) ==> Peak(floor, inits, name) >= Amount(c.requests, name)
    ensures Peak(floor, inits, name) == floor
            || exists c :: c in inits && !Restartable(c) && Peak(floor, inits, name) == Amount(c.requests, name)
  {
    if inits == [] {
    } else {
      var n := |inits| - 1;
      PeakCovers(floor, inits[..n], name);
      assert inits == inits[..n] + [inits[n]];
    }
  }

  lemma PeakTake(floor: int, inits: seq<Container>, i: nat, name: string)
    requires i < |inits|
    ensures Peak(floor, inits[..i + 1], name) == Raised(Peak(floor, inits[..i], name), inits[i], name)
  {
    assert inits[..i + 1][..i] == inits[..i];
  }

  function Effective(spec: PodSpec, name: string): (r: nat)
    ensures IsEffective(spec, name, r)
  {
    assert Steady(spec, name) >= 0 by {
      SumNonNegative(Request(name), spec.containers);
      SumNonNegative(SidecarRequest(name), spec.initContainers);
    }
    PeakCovers(Steady(spec, name), spec.initContainers, name);
    Peak(Steady(spec, name), spec.initContainers, name) + Amount(spec.overhead, name)
  }

  /** What a steady pod asks for grows with every container by the container's
      own request, and with an init container only if that restarts always. */
  lemma SteadyExactly(spec: PodSpec, c: Container, name: string)
    ensures var request := if c.requests.Some? && name in c.requests.value then c.requests.value[name] else 0;
            && Steady(PodSpec([], [], spec.overhead), name) == 0
            && Steady(spec.(containers := spec.containers + [c]), name) == Steady(spec, name) + request
            && Steady(spec.(initContainers := spec.initContainers + [c]), name)
               == Steady(spec, name) + if c.restartPolicy == Some("Always") then request else 0
  {
    SumTake(Request(name), spec.containers + [c], |spec.containers|);
    SumTake(SidecarRequest(name), spec.initContainers + [c], |spec.initContainers|);
    assert (spec.containers + [c])[..|spec.containers| + 1] == spec.containers + [c];
    assert (spec.containers + [c])[..|spec.containers|] == spec.containers;
    assert (spec.initContainers + [c])[..|spec.initContainers| + 1] == spec.initContainers + [c];
    assert (spec.initContainers + [c])[..|spec.initContainers|] == spec.initContainers;
  }

  /** The effective amount less the overhead is the steady amount or that of a
      plain init container, whichever is the largest. */
  lemma EffectiveExactly(spec: PodSpec, name: string)
    ensures var overhead :=
              if spec.overhead.Some? && name in spec.overhead.value then spec.overhead.value[name] else 0;
            var base := Effective(spec, name) - overhead;
            && base >= Steady(spec, name)
            && (forall c :: c in spec.initContainers && c.restartPolicy != Some("Always") ==>
                  base >= if c.requests.Some? && name in c.requests.value then c.requests.value[name] else 0)
            && (base == Steady(spec, name)
                || exists c :: c in spec.initContainers && c.restartPolicy != Some("Always")
                     && base == if c.requests.Some? && name in c.requests.value then c.requests.value[name] else 0)
  {
    assert IsEffective(spec, name, Effective(spec, name));
  }

  // --------------------------------------------------------------- the loops

  /** The request as it is computed: three passes over the containers that
      update both sums, then the overhead. */
  method PodEffectiveRequests(spec: PodSpec) returns (cpu: nat, mem: nat)
    ensures cpu == Effective(spec, "cpu") && mem == Effective(spec, "memory")
  {
    cpu, mem := 0, 0;
    for i := 0 to |spec.containers|
      invariant cpu == Sum(Request(CPU), spec.containers[..i])
      invariant mem == Sum(Request(MEMORY), spec.containers[..i])
    {
      var reqs := spec.containers[i].requests;
      SumTake(Request(CPU), spec.containers, i);
      SumTake(Request(MEMORY), spec.containers, i);
      cpu := cpu + Amount(reqs, CPU);
      mem := mem + Amount(reqs, MEMORY);
    }
    assert spec.containers[..|spec.containers|] == spec.containers;
    cpu, mem := AddSidecars(spec, cpu, mem);
    cpu, mem := RaiseToInits(spec, cpu, mem);
    cpu := cpu + Amount(spec.overhead, CPU);
    mem := mem + Amount(spec.overhead, MEMORY);
  }

  method AddSidecars(spec: PodSpec, cpu0: nat, mem0: nat) returns (cpu: nat, mem: nat)
    ensures cpu == cpu0 + Sum(SidecarRequest(CPU), spec.initContainers)
    ensures mem == mem0 + Sum(SidecarRequest(MEMORY), spec.initContainers)
  {
    cpu, mem := cpu0, mem0;
    for i := 0 to |spec.initContainers|
      invariant cpu == cpu0 + Sum(SidecarRequest(CPU), spec.initContainers[..i])
      invariant mem == mem0 + Sum(SidecarRequest(MEMORY), spec.initContainers[..i])
    {
      var c := spec.initContainers[i];
      SumTake(SidecarRequest(CPU), spec.initContainers, i);
      SumTake(SidecarRequest(MEMORY), spec.initContainers, i);
      if Restartable(c) {
        cpu := cpu + Amount(c.requests, CPU);
        mem := mem + Amount(c.requests, MEMORY);
      }
    }
    assert spec.initContainers[..|spec.initContainers|] == spec.initContainers;
  }

  method RaiseToInits(spec: PodSpec, cpu0: nat, mem0: nat) returns (cpu: nat, mem: nat)
    ensures cpu == Peak(cpu0, spec.initContainers, CPU)
    ensures mem == Peak(mem0, spec.initContainers, MEMORY)
  {
    cpu, mem := cpu0, mem0;
    for i := 0 to |spec.initContainers|
      invariant cpu == Peak(cpu0, spec.initContainers[..i], CPU)
      invariant mem == Peak(mem0, spec.initContainers[..i], MEMORY)
    {
      var c := spec.initContainers[i];
      PeakTake(cpu0, spec.initContainers, i, CPU);
      PeakTake(mem0, spec.initContainers, i, MEMORY);
      if Restartable(c) {
        continue;
      }
      if cpu < Amount(c.requests, CPU) {
        cpu := Amount(c.requests, CPU);
      }
      if mem < Amount(c.requests, MEMORY) {
        mem := Amount(c.requests, MEMORY);
      }
    }
    assert spec.initContainers[..|spec.initContainers|] == spec.initContainers;
  }

  // --------------------------------------------------------------- properties

  /** Neither the order of the containers nor that of the init containers matters. */
  lemma EffectivePermuted(a: PodSpec, b: PodSpec, name: string)
    requires multiset(a.containers) == multiset(b.containers)
    requires multiset(a.initContainers) == multiset(b.initContainers)
    requires a.overhead == b.overhead
    ensures Effective(a, name) == Effective(b, name)
  {
    SumPermuted(Request(name), a.containers, b.containers);
    SumPermuted(SidecarRequest(name), a.initContainers, b.initContainers);
    forall c
      ensures c in a.initContainers <==> c in b.initContainers
    {
      assert c in multiset(a.initContainers) <==> c in multiset(b.initContainers);
    }
    EffectiveUnique(b, name, Effective(a, name), Effective(b, name));
  }

  predicate Covers(a: Container, b: Container, name: string) {
    Amount(a.requests, name) <= Amount(b.requests, name) && Restartable(a) == Restartable(b)
  }

  ghost predicate AllCover(a: seq<Container>, b: seq<Container>, name: string) {
    |a| == |b| && forall i :: 0 <= i < |a| ==> Covers(a[i], b[i], name)
  }

  lemma {:induction false} SumsGrow(a: seq<Container>, b: seq<Container>, name: string)
    requires AllCover(a, b, name)
    ensures Sum(Request(name), a) <= Sum(Request(name), b)
    ensures Sum(SidecarRequest(name), a) <= Sum(SidecarRequest(name), b)
  {
    if a == [] {
    } else {
      var n := |a| - 1;
      assert AllCover(a[..n], b[..n], name);
      SumsGrow(a[..n], b[..n], name);
      assert Covers(a[n], b[n], name);
    }
  }

  /** Asking for more in any container never lowers the effective request. */
  lemma EffectiveMonotone(a: PodSpec, b: PodSpec, name: string)
    requires AllCover(a.containers, b.containers, name) && AllCover(a.initContainers, b.initContainers, name)
    requires Amount(a.overhead, name) <= Amount(b.overhead, name)
    ensures Effective(a, name) <= Effective(b, name)
  {
    SumsGrow(a.containers, b.containers, name);
    SumsGrow(a.initContainers, b.initContainers, name);
    var base := Effective(a, name) - Amount(a.overhead, name);
    if base != Steady(a, name) {
      var c :| c in a.initContainers && !Restartable(c) && base == Amount(c.requests, name);
      var i :| 0 <= i < |a.initContainers| && a.initContainers[i] == c;
      assert Covers(c, b.initContainers[i], name);
      assert b.initContainers[i] in b.initContainers;
    }
  }
}
