# Kubto in Dafny

A model of the decision core of Kubto, a Kubernetes node autoscaler, with proofs
of what it keeps and promises. CPU is in milli-cores, memory in bytes, time in
nanoseconds; all three are integers.

| files | part |
|---|---|
| `Estimator.dfy` | the estimator as it runs: shared bins written in place, a running minimum per best-fit search, an early report per pod |
| `Packing.dfy`, `PackingBounds.dfy`, `Estimation.dfy` | the same packing as functions on values, its accounts, its report and how good the node count is |
| `AnyFit.dfy`, `Crowding.dfy`, `Decreasing.dfy` | bounds for every packing that opens a node only when no open one has room; the sharper one for decreasing order |
| `Convergence.dfy` | opening nodes lazily and having them from the start lead to the same choices |
| `ScalingPolicy.dfy` | the threshold policy, and how its volume count relates to the packing count |
| `ClusterState.dfy`, `ClusterView.dfy` | the cached cluster view as an object, and its writers as functions replayed in any order |
| `PodResources.dfy`, `PodWatcher.dfy` | effective requests, and the sync that feeds the view |
| `Api.dfy`, `Lifecycle.dfy` | nodes and pods at the API server, what others may do to them, idle detection and the removal pipeline |
| `ControllerSteps.dfy`, `Controller.dfy`, `Backoff.dfy` | the controller's counters and timestamps, one reconcile, the failure pause in 64-bit arithmetic |
| `ControllerSystem.dfy`, `Reconciles.dfy` | any number of tick goroutines, the clock and the nodes as a machine of small steps; whole batches and rounds of it |
| `NodeLimits.dfy`, `ScaleDown.dfy`, `ProvisioningRate.dfy` | what holds over the machine's runs: the node limit and the minimum, removals, the rate of provisioning |
| `Cluster.dfy`, `Sums.dfy`, `Filters.dfy`, `Wrappers.dfy` | records and scheduling rules, sums and their exchange, filtered lists, Option and Result |

How concurrency is modelled. `ControllerSystem` has one step per TryLock,
decision, reservation, CreateNode call, timestamp update, release and unlock;
other goroutines and other clients may step in between, and the theorems
quantify over all step sequences. The removal pipeline calls `Interfere`
between its API calls; callers know of it only the relation `Rely`, which
`EventsRely` proves of every finite sequence of events.

Where the code does not do what it or its documentation says:

- The failure pause (README.md:96, autoscaler_controller.go:364) is not kept for
  ever. The shift wraps, and `PauseExact` shows that the pause is the intended one
  exactly up to 61 consecutive failures and at 63, and zero everywhere else.
- `SetPods` is said to recompute node usage (cluster_state.go:109). With an empty
  scheduled list it does not, and `SyncAgreesIff` gives the exact condition;
  `StaleUsage` is a run in which a node still looks used after its last pod left.
- README.md:42-43 and README.md:167 promise that the last node stays. Only the policy's
  own scale-down branch asks for that, and the controller never acts on it.
  `MinimumKeptIff` gives the exact condition under which a pick keeps the minimum
  number of nodes, `MinimumKept` shows that guarding every pick by it is enough over
  every run, and `LastNodeGoes` is a run that removes the only node.
- README.md:43 and README.md:170 promise a minimum node age. The removal path never looks
  at it (`PickIgnoresAge`). `AgeKeptIff`: whatever the list calls show, no young node is
  picked exactly when the cooldown is on or every usable, under-used node of the view is
  old enough.
- README.md:168 calls the maximum a hard upper bound. The policy counts the nodes its
  view shows, which may miss live nodes, and not those whose CreateNode call timed out
  and which may still register (node_provisioner.go:142-146). `LimitKeptIff` gives the
  exact condition under which a decision keeps the limit, for any view. With complete
  views `NodeCap` bounds the excess by the nodes that register late, and
  `LateNodesExceed` reaches that bound for every number of them.
- README.md:170 promises a minimum duration between scale-downs. `SpacedIff`: after a
  removal every later one keeps that distance exactly when the removal reported success;
  a failed cordon, a drain that times out, a refused clean-up and a delete call whose
  reply was lost hold up nothing (`FailedRemovalsUnspaced`).
- An eviction is meant for the pod that was listed (node_drain.go:64). It is addressed
  by name only, so it reaches whichever pod bears that name by then: `EvictsListedIff`
  gives the exact condition, `NamesakeHit` a sequence of events after which a pod on
  another node is hit. The safety of the removal does not depend on it.
- The in-flight counter never influences a decision: `SingleReconcile` shows that it
  is zero whenever a batch size is computed.

## Model

| member | source | states |
|---|---|---|
| Cluster.CanPodFitConstraints | autoscaler/pkg/estimator/resource_estimator.go:321-369 | yes exactly when every selector entry matches, a missing label reading as empty, and every NoSchedule or NoExecute taint has a toleration of its key and effect that is Exists, operator-less, or Equal with its value |
| Cluster.OtherEffectsIgnored | autoscaler/pkg/estimator/resource_estimator.go:333-337 | taints of other effects never matter |
| Packing.BestFitFinds | autoscaler/pkg/estimator/resource_estimator.go:213-228 | the search finds the first of the fitting nodes that leave the least, and only that node answers this description |
| Packing.BestFitExactly | autoscaler/pkg/estimator/resource_estimator.go:213-228 | told in free capacities: the chosen node has room and leaves the fewest milli-cores plus whole mebibytes; none is chosen only if none has room |
| Packing.PackSound | autoscaler/pkg/estimator/resource_estimator.go:206-297 | for every bin and dimension, initial capacity equals what is left plus the requests of its pods, nothing goes below zero, every placed pod's bin admits it and every rejection has its reason |
| Packing.RoomShrinks | autoscaler/pkg/estimator/resource_estimator.go:230-266 | along a run no bin ever gains room and no opened node disappears |
| Packing.LocallyOptimal | autoscaler/pkg/estimator/resource_estimator.go:213-282 | at the end nothing on a template node fits an existing node's leftover, and nothing rejected fits any leftover or an empty template |
| AnyFit.PairsCrowded | autoscaler/pkg/estimator/resource_estimator.go:242-294 | no two opened nodes could have been one: together their pods exceed a template in some dimension |
| AnyFit.TracePacks | autoscaler/pkg/estimator/resource_estimator.go:242-294 | the pods put on the opened nodes do fit into that many templates |
| AnyFit.TwoDimensional | autoscaler/pkg/estimator/resource_estimator.go:242-316 | from two nodes on, k nodes hold more than k/2 templates of summed CPU and memory shares |
| Crowding.CrowdedTotals | autoscaler/pkg/estimator/resource_estimator.go:242-294 | any 3m - 1 loads of which no two fit one template exceed m templates in CPU or in memory |
| Crowding.WithinThreefold | autoscaler/pkg/estimator/resource_estimator.go:242-316 | at most 3m - 2 nodes where any packing of the same pods, the best one included, has m |
| AnyFit.SmallPods | autoscaler/pkg/estimator/resource_estimator.go:242-316 | pods of at most one m-th of a template fill all nodes but one to (m-1)/m in some dimension, summed up |
| Decreasing.LargeOpener | autoscaler/pkg/estimator/resource_estimator.go:201-297 | if the pod that opens the last node is larger than a third of a node, no packing uses fewer nodes |
| Decreasing.ThreeHalves | autoscaler/pkg/estimator/resource_estimator.go:201-297 | in decreasing order along one dimension, 2k <= 3m + 1 for every packing into m nodes |
| Decreasing.DecreasingBound | autoscaler/pkg/estimator/resource_estimator.go:185-297 | the same for pods sorted by score when one dimension dominates all of them |
| PackingBounds.RunIsAnyFit | autoscaler/pkg/estimator/resource_estimator.go:242-294 | a run opens a template node only for a pod that has no room in any opened one, by size alone |
| PackingBounds.DeltaIsTemplateDemand | autoscaler/pkg/estimator/resource_estimator.go:299-315 | the deficit is exactly the requests of the pods on template nodes |
| PackingBounds.DemandConserved | autoscaler/pkg/estimator/resource_estimator.go:206-315 | requests equal what existing nodes took plus the deficit plus what was rejected |
| PackingBounds.DeltaZeroIff | autoscaler/pkg/estimator/resource_estimator.go:299-316 | the deficit is zero exactly when no node is needed |
| PackingBounds.NodesNeededWithinThreefold | autoscaler/pkg/estimator/resource_estimator.go:206-316 | NodesNeeded templates hold the pods, and NodesNeeded <= 3m - 2 for every packing of them into m templates |
| PackingBounds.SmallPodNodes | autoscaler/pkg/estimator/resource_estimator.go:242-316 | the small-pod bound in terms of NodesNeeded and the deficit, for every m |
| PackingBounds.NodesNeededDecreasing | autoscaler/pkg/estimator/resource_estimator.go:201-316 | 2 * NodesNeeded <= 3m + 1 for every packing of dominated pods into m templates |
| Convergence.SameBin | autoscaler/pkg/estimator/resource_estimator.go:213-257 | among nodes provisioned in advance best fit picks the opened node lazy opening picks, ties included, else the first empty one |
| Convergence.Simulation | autoscaler/pkg/estimator/resource_estimator.go:210-297 | pod by pod, a run on provisioned nodes mirrors the run that opens them |
| Convergence.Converges | autoscaler/pkg/estimator/resource_estimator.go:206-316 | with the needed nodes present the same pods need none, leave no deficit and land in the same bins |
| Estimation.ReportFaithful | autoscaler/pkg/estimator/resource_estimator.go:167-296 | with distinct names the two maps of the report tell each pod's own outcome and every pod is in exactly one of them |
| Estimation.ReestimateConverges | autoscaler/pkg/estimator/resource_estimator.go:106-319 | when no pod fits the present nodes, estimating again after the needed nodes joined gives zero nodes, zero deficit and the same infeasible pods |
| Estimation.ReportFigures | autoscaler/pkg/estimator/resource_estimator.go:299-316 | deficit and node count vanish together, bound each other from both sides, and NodesNeeded <= 3m - 2 whenever the deficit is within m templates |
| Estimator.BestFitNode | autoscaler/pkg/estimator/resource_estimator.go:213-228 | the loop with a running minimum that starts at -1 returns the best fitting node object |
| Estimator.PlacePod | autoscaler/pkg/estimator/resource_estimator.go:210-297 | one pod updates exactly the chosen node object in place, or opens one, as the packing function says, and gets its verdict |
| Estimator.GatherCandidates | autoscaler/pkg/estimator/resource_estimator.go:121-145 | one fresh bin per ready, schedulable node, with its free capacity cut off at zero |
| Estimator.Categorize | autoscaler/pkg/estimator/resource_estimator.go:157-199 | unsupported and zero-request pods are settled, the others collected in order |
| Estimator.PackInOrder | autoscaler/pkg/estimator/resource_estimator.go:206-297 | after the loop over the sorted pods all objects, both maps and the consumed capacity are those of the run |
| Estimator.RemainingDeficit | autoscaler/pkg/estimator/resource_estimator.go:299-306 | sums what is gone from the opened node objects |
| Estimator.EstimateDetailed | autoscaler/pkg/estimator/resource_estimator.go:106-319 | packs exactly the supported pods that ask for something, larger share first; candidates are exactly the ready, schedulable nodes; what each is given fits beside what it uses, and no pod put elsewhere would have fitted there; new nodes hold at most a template; the report is that run's, and consumed capacity, deficit and rejected requests add up to the demand |
| Estimation.UsableAre | autoscaler/pkg/estimator/resource_estimator.go:121-126 | the candidates are the ready, schedulable nodes in their order |
| Estimation.EveryNodeRespected | autoscaler/pkg/estimator/resource_estimator.go:128-145 | used plus placed requests stay within each node's allocatable amounts, and a pod put elsewhere would have exceeded them or is not admitted |
| Estimation.ScheduledAndPlacedFit | autoscaler/pkg/estimator/resource_estimator.go:128-145 | over every run of the cache's writers, scheduled plus newly placed requests fit into what a node has allocatable |
| Estimation.ReportTells | autoscaler/pkg/estimator/resource_estimator.go:167-296 | with distinct names both maps say of every pod which node or new node it got, that it asks for nothing, or which of the three reasons kept it out |
| ScalingPolicy.CeilDivCovers | autoscaler/pkg/decision/scaling_policy.go:206-212 | for non-negative amounts the machine division gives the least number of shares that covers the amount |
| ScalingPolicy.ScaleDownCandidate | autoscaler/pkg/decision/scaling_policy.go:170-202 | the early-exit loop names the first node that is ready, schedulable, under-used, free of critical pods and old enough, and none otherwise |
| ScalingPolicy.Evaluate | autoscaler/pkg/decision/scaling_policy.go:108-168 | scales up exactly on an exceeded threshold below the node limit; the count stays within the limit, covers the deficit unless the limit cuts it, and one less would not cover it; scales down by one, only above the minimum and only the first eligible node; otherwise decides nothing |
| ScalingPolicy.CountExactly | autoscaler/pkg/decision/scaling_policy.go:113-140 | the count stays within the limit, below it covers the deficit, and one node less would not |
| ScalingPolicy.ClampedCountRight | autoscaler/pkg/controller/autoscaler_controller.go:249-262 | after the clamp the count is the one that is within both limits and just enough |
| ScalingPolicy.RightCountUnique | autoscaler/pkg/controller/autoscaler_controller.go:249-262 | that description fixes the count |
| ScalingPolicy.ShippedFigures | autoscaler/pkg/decision/scaling_policy.go:84-100 | the figures of the shipped policy, and of the template it goes with |
| ScalingPolicy.PolicyWithinEstimate | autoscaler/pkg/controller/autoscaler_controller.go:249-262 | with the same template 1 <= n <= NodesNeeded <= 3n - 2 for the uncapped count n, so the clamp to NodesNeeded never changes the count |
| ScalingPolicy.ShippedWithinEstimate | autoscaler/pkg/controller/autoscaler_controller.go:249-262 | the shipped policy and template are such a pair: as delivered the clamp does nothing |
| PodResources.Effective | autoscaler/pkg/monitor/pod_resources.go:8-17 | the least amount that covers containers plus sidecars together and each plain init container alone, plus overhead |
| PodResources.PodEffectiveRequests | autoscaler/pkg/monitor/pod_resources.go:17-74 | the three accumulating passes compute it for CPU and memory |
| PodResources.EffectiveUnique | autoscaler/pkg/monitor/pod_resources.go:8-17 | that description fixes the amount |
| PodResources.SteadyExactly | autoscaler/pkg/monitor/pod_resources.go:45-61 | each container adds its request to the steady amount, each init container only if it restarts always |
| PodResources.EffectiveExactly | autoscaler/pkg/monitor/pod_resources.go:62-73 | less the overhead it is the steady amount or the largest plain init container's, whichever is larger |
| PodResources.EffectivePermuted | autoscaler/pkg/monitor/pod_resources.go:45-66 | the order of containers and of init containers does not matter |
| PodResources.EffectiveMonotone | autoscaler/pkg/monitor/pod_resources.go:45-71 | asking for more in any container never lowers the result |
| PodWatcher.PodToInfo | autoscaler/pkg/monitor/pod_watcher.go:98-148 | carries every field over: effective requests, the first scheduling condition, and the unsupported constraint that is reported when several apply |
| PodWatcher.Sync | autoscaler/pkg/monitor/pod_watcher.go:64-92 | hands over, in the order of the store and in one write, exactly the pods in phase Pending and exactly the bound ones in neither final phase |
| PodWatcher.SyncedUsage | autoscaler/pkg/monitor/pod_watcher.go:64-89 | right after a sync with a bound pod each node's cached usage is the effective demand of the store's non-terminal pods bound to it |
| ClusterState.ClusterState.constructor | autoscaler/pkg/monitor/cluster_state.go:87-90 | the state starts empty |
| ClusterState.ClusterState.SetPendingPods | autoscaler/pkg/monitor/cluster_state.go:94-99 | replaces the pending list and nothing else |
| ClusterState.ClusterState.SetScheduledPods | autoscaler/pkg/monitor/cluster_state.go:101-107 | replaces the scheduled list and recomputes |
| ClusterState.ClusterState.SetPods | autoscaler/pkg/monitor/cluster_state.go:109-116 | replaces both lists in one step and recomputes |
| ClusterState.ClusterState.SetNodes | autoscaler/pkg/monitor/cluster_state.go:118-126 | replaces the nodes and recomputes if a pod is scheduled |
| ClusterState.ClusterState.RecomputeNodeUsage | autoscaler/pkg/monitor/cluster_state.go:128-162 | writes into every node the sum over the scheduled pods naming it, and does nothing when there are none |
| ClusterState.AccumulateRequests | autoscaler/pkg/monitor/cluster_state.go:134-147 | the two accumulation maps hold each name's summed requests |
| ClusterState.ClusterState.UpdateNode | autoscaler/pkg/monitor/cluster_state.go:164-189 | the first node of that name takes over every field of the update, keeping cached usage the update does not bring; a new name is appended; everything else and the order stay |
| ClusterState.ClusterState.RemoveNode | autoscaler/pkg/monitor/cluster_state.go:191-202 | keeps exactly the nodes of other names, in order |
| ClusterState.ClusterState.TotalUsedCPU | autoscaler/pkg/monitor/cluster_state.go:261-270 | sums the cached CPU usage of all nodes |
| ClusterState.ClusterState.TotalUsedMemory | autoscaler/pkg/monitor/cluster_state.go:272-281 | sums the cached memory usage of all nodes |
| ClusterView.UsageAgrees | autoscaler/pkg/monitor/cluster_state.go:95-202 | after any sequence of writers, while some pod is scheduled, every cached usage is the sum over the pods naming the node |
| ClusterView.LastUpdateShown | autoscaler/pkg/monitor/cluster_state.go:164-202 | over every run of the watchers a name is cached exactly if the last event about it was an update, and the node shows what that update brought |
| ClusterView.SyncAgreesIff | autoscaler/pkg/monitor/cluster_state.go:109-133 | a sync leaves the cache right exactly when it brings a scheduled pod or all cached usage was zero |
| ClusterView.StaleUsage | autoscaler/pkg/monitor/cluster_state.go:130-133 | a run after which a node without pods still shows its last pod's CPU |
| ClusterView.Commute | autoscaler/pkg/monitor/cluster_state.go:110-202 | a node event and a sync with a scheduled pod give the same nodes, order and usage in either order |
| ClusterView.InterleavingsAgree | autoscaler/pkg/monitor/cluster_state.go:110-202 | all interleavings of a node-event stream with a pod-sync stream reach one state |
| ClusterView.UsageConserved | autoscaler/pkg/monitor/cluster_state.go:134-161 | total usage over distinctly named nodes equals the requests of the scheduled pods on known nodes |
| ClusterView.WatcherRunConserves | autoscaler/pkg/monitor/cluster_state.go:261-281 | so it does along every run of the pod and node watchers |
| Api.IdleLeavesSystemPods | autoscaler/pkg/lifecycle/idle_detector.go:99-144 | a node passes the workload check exactly when every pod the drainer would evict is in the system namespace or critical |
| Api.SkippedExactly | autoscaler/pkg/lifecycle/node_drain.go:121-137 | the drainer spares finished, static and daemon-set pods, and no others |
| Api.WorkloadExactly | autoscaler/pkg/lifecycle/idle_detector.go:107-144 | the idle check's five excuses, field by field |
| Api.EventsRely | autoscaler/pkg/lifecycle/idle_detector.go:157-189 | whatever sequence of scheduler, kubelet and client events happens between two calls, relabelling of pods included, a cordoned node stays so, keeps its mark and gains no evictable pod |
| Api.RelabelRelyIff | autoscaler/pkg/lifecycle/node_drain.go:119-140 | relabelling a pod on a closed node is harmless exactly when it does not end the pod's exemption from eviction |
| Api.EvictsListedIff | autoscaler/pkg/lifecycle/node_drain.go:64-73 | an eviction reaches the listed pod exactly when that pod was not deleted since the list call, over every sequence of events in between |
| Api.NamesakeHit | autoscaler/pkg/lifecycle/node_drain.go:64-73 | a pod recreated under its old name on another node is reached instead |
| Lifecycle.NodeHasWorkloadPods | autoscaler/pkg/lifecycle/idle_detector.go:107-144 | says at the moment of its list call whether a workload pod is on the node |
| Lifecycle.FindIdleNodes | autoscaler/pkg/lifecycle/idle_detector.go:59-97 | returns in order exactly the ready, schedulable, under-used nodes that were seen without a running pod outside the system namespace that is no daemon-set's, not static and not critical; pods are looked up once each, failed look-ups are skipped |
| Lifecycle.CordonNode | autoscaler/pkg/lifecycle/idle_detector.go:192-203 | on success the node is there and cordoned; it fails only when a call failed |
| Lifecycle.EvictPod | autoscaler/pkg/lifecycle/node_drain.go:64-86 | one eviction request by namespace and name; at most a pod that bears the name at that moment goes, and none if a disruption budget refused; a name that is gone counts as done |
| Lifecycle.WaitForPodsGone | autoscaler/pkg/lifecycle/node_drain.go:90-116 | polls at once and then at most once per five seconds; success means that at the last poll nothing evictable was on the node; it gives up only when the time-out is over or the controller shuts down, and no poll saw the node drained; list errors never count as success |
| Lifecycle.ListedDecides | autoscaler/pkg/lifecycle/node_drain.go:96-107 | a list of the node's pods tells exactly which evictable pods are there, and whether none is |
| Lifecycle.EvictAll | autoscaler/pkg/lifecycle/node_drain.go:47-58 | sends one eviction for each listed pod that is not skipped, in list order, whatever the replies |
| Lifecycle.Drain | autoscaler/pkg/lifecycle/node_drain.go:37-61 | asks, once each, for the eviction of exactly the names of the listed pods that are not finished, static or a daemon-set's, critical and system pods included, and ends as the wait does |
| Lifecycle.Cleanup | autoscaler/pkg/lifecycle/node_cleanup.go:36-63 | deletes only a node that carries the mark at that moment, runs the hook only after a reported deletion, refuses only an unmarked node, and deletes nothing on an error unless the delete call itself lost its reply |
| Lifecycle.RemoveNode | autoscaler/pkg/lifecycle/idle_detector.go:157-189 | under every interleaving and with lost replies: at most one deletion, when the node was cordoned, marked and free of evictable pods; success means that deletion, then hook, then container; an error other than a failed delete call means no deletion, and comes only from a failed call, a time-out that is over, a shutdown or a missing mark |
| Lifecycle.DeletionsSafe | autoscaler/pkg/lifecycle/idle_detector.go:157-189 | at every deletion, reported or not, the node was cordoned and carried the mark, and each pod on it was finished, static or a daemon-set's |
| Backoff.PauseExact | autoscaler/pkg/controller/autoscaler_controller.go:363-370 | the 64-bit pause is min(60, 5 * 2^(f-1)) seconds exactly for f <= 61 and f = 63, else zero |
| Backoff.IdealExactly | autoscaler/pkg/controller/autoscaler_controller.go:363-368 | the intended pause is 5, 10, 20, 40 and then 60 seconds |
| ControllerSteps.BatchLeaves | autoscaler/pkg/controller/autoscaler_controller.go:317-372 | after a batch the reservation is given back, the failure count is cleared or grown by every attempt, and the next batch may start exactly when the pause is over, for every cooldown |
| ControllerSteps.UnreadyExactly | autoscaler/pkg/controller/autoscaler_controller.go:310-316 | the count of unready nodes is the number of positions whose node is not ready |
| ControllerSteps.PauseKeptIff | autoscaler/pkg/controller/autoscaler_controller.go:363-372 | the intended pause is enforced exactly for failure counts up to 61 and 63; otherwise a batch may follow at once |
| Controller.AutoscalerController.constructor | autoscaler/pkg/controller/autoscaler_controller.go:95-110 | counters start at zero, cooldowns at sixty seconds, and the zero time stamps let the first action through |
| Controller.AutoscalerController.HandleScaleUp | autoscaler/pkg/controller/autoscaler_controller.go:300-373 | during the cooldown no call; otherwise the count less the nodes in flight and those not ready, if positive; a success stamps the time and clears the failures, a batch without one adds all its attempts and arranges the pause; the reservation is given back |
| Controller.AutoscalerController.HandleScaleDown | autoscaler/pkg/controller/autoscaler_controller.go:377-399 | tries a removal exactly when the cooldown is over, succeeds only safely, fails only on a failed call, a missing mark or a time-out, and restarts the cooldown only on success |
| Controller.AutoscalerController.ScaleUpFor | autoscaler/pkg/controller/autoscaler_controller.go:222-266 | packs exactly the waiting pods; the number of calls is the right count less the nodes in flight or unready, zero without need, trigger or headroom, each stage reading its own node list |
| Controller.AutoscalerController.ScaleDownIdle | autoscaler/pkg/controller/autoscaler_controller.go:267-289 | picks the first idle node of the view, removes it exactly when the cooldown is over, and only safely |
| Controller.AutoscalerController.Reconcile | autoscaler/pkg/controller/autoscaler_controller.go:184-296 | a tick that finds the lock taken does nothing; otherwise a pending pod that waits decides the branch: a batch of the size above and no cluster change, or the first idle node's removal and no batch; every reservation and the lock are given back |
| Controller.WaitingAre | autoscaler/pkg/controller/autoscaler_controller.go:216-222 | exactly the pending pods that wait are reported, each as often as it is pending |
| ControllerSystem.SingleReconcile | autoscaler/pkg/controller/autoscaler_controller.go:179-197 | with any number of goroutines at most one is past TryLock; the in-flight counter equals the batch of the one that provisions, and is zero whenever a batch size is computed or no one holds the lock |
| NodeLimits.NodeCap | autoscaler/pkg/controller/autoscaler_controller.go:311-357 | over every run live nodes never exceed max(initial, MaxNodes) by more than the nodes that registered after their failing CreateNode call had returned |
| NodeLimits.GrantedRight | autoscaler/pkg/controller/autoscaler_controller.go:249-262 | the machine's decision grants the right count for its view, and none without need, trigger or headroom |
| NodeLimits.LimitKeptIff | autoscaler/pkg/decision/scaling_policy.go:113-140 | a decision, on any view, keeps the limit whatever happens afterwards exactly when live nodes, containers yet to register and the count together stay within it |
| NodeLimits.LateNodesExceed | autoscaler/pkg/provisioner/node_provisioner.go:142-146 | for every k a run with complete views after which there are k nodes more than the limit |
| NodeLimits.MinimumKept | autoscaler/pkg/decision/scaling_policy.go:153-156 | over every run in which no node is picked while there are no more than MinNodes, live nodes stay at min(initial, MinNodes) or above, lost delete replies included |
| NodeLimits.MinimumLost | autoscaler/pkg/controller/autoscaler_controller.go:275-282 | an idle node that is picked can go, whatever the number of nodes |
| NodeLimits.MinimumKeptIff | autoscaler/pkg/controller/autoscaler_controller.go:275-282 | a pick keeps the minimum, whatever happens afterwards, exactly when there are more nodes than the minimum, or nothing is idle, or the cooldown is on |
| NodeLimits.LastNodeGoes | autoscaler/pkg/controller/autoscaler_controller.go:275-282 | a run that removes the only node |
| NodeLimits.AgeKeptIff | autoscaler/pkg/lifecycle/idle_detector.go:59-97 | whatever the list calls show, a pick respects the minimum age exactly when the cooldown is on or every usable, under-used node of the view is old enough |
| NodeLimits.PickIgnoresAge | autoscaler/pkg/lifecycle/idle_detector.go:59-97 | the pick is the same at all node ages |
| ScaleDown.RemovalsBounded | autoscaler/pkg/controller/autoscaler_controller.go:275-282 | over every run the removals past the cordon plus the nodes still schedulable are at most those schedulable at the start plus those that joined |
| ScaleDown.NeverPickedAgain | autoscaler/pkg/lifecycle/idle_detector.go:66-69 | a cordoned node whose removal failed is never picked again unless a node joins under its name |
| ScaleDown.RemovalsSpaced | autoscaler/pkg/controller/autoscaler_controller.go:377-399 | over every run each removal starts at least a scale-down cooldown after every earlier one that reported success |
| ScaleDown.SpacedIff | autoscaler/pkg/controller/autoscaler_controller.go:377-399 | at the end of any removal in any run: all later removals keep the cooldown's distance to it exactly when it reported success |
| ScaleDown.FailedRemovalsUnspaced | autoscaler/pkg/controller/autoscaler_controller.go:389-392 | after any removal that did not report success, wherever it failed and even if the node is gone, the next can start at the same moment |
| ProvisioningRate.BatchesSpaced | autoscaler/pkg/controller/autoscaler_controller.go:302-372 | over every run each batch waits for the pause after the one before, a full cooldown after a success |
| ProvisioningRate.ProvisioningRateBound | autoscaler/pkg/controller/autoscaler_controller.go:359-372 | over every run, n failing batches in a row with at most 61 failures take at least the sum of the intended pauses, whatever the cooldown |
| ProvisioningRate.OverflowStartsAtOnce | autoscaler/pkg/controller/autoscaler_controller.go:363-370 | for every policy that can scale up, a run of 62 failing batches after which the next begins at the same moment |
| ProvisioningRate.EveryBatch | autoscaler/pkg/controller/autoscaler_controller.go:308-372 | in every run, however other goroutines, clock and cluster interleave, a batch changes the controller's fields as HandleScaleUp does |
| ProvisioningRate.DecisionMatches | autoscaler/pkg/controller/autoscaler_controller.go:244-325 | the machine's decision and batch make as many calls as the controller object |
| Reconciles.SoloBatch | autoscaler/pkg/controller/autoscaler_controller.go:308-372 | for all outcomes, new names and durations there is a run in which one goroutine's batch changes the controller's fields as HandleScaleUp does |

## Left out

- Estimator.SortByScore: stands in for the library sort; everything is proved for every order of descending score, so nothing depends on how ties fall.
- Decreasing.Score: compares the larger of the two template shares exactly, cleared of denominators; rounding of the floating-point score is not modelled.
- Estimation.DEFAULT_TEMPLATE: bounds are stated for templates with positive CPU and memory, as this one has; a zero capacity makes the source's score undefined.
- Estimation.ReestimateConverges: needs that no pending pod fits a present node, because otherwise best fit may choose differently among more nodes.
- Packing.Remaining: 64-bit overflow of capacities and sums is not modelled.
- ScalingPolicy.Evaluate: reads the nodes once; the critical-pod look-up is a function passed in, and percentages are exact rationals.
- Lifecycle.RemoveNode: relies on the scheduler binding evictable pods to uncordoned nodes only, on finished pods staying finished, on pods that are static or a daemon-set's not losing their exemption (Api.RelabelRelyIff), and on nobody uncordoning the node, removing its managed-by mark or reusing its name meanwhile; without these the source gives no guarantee either.
- Controller.AutoscalerController.Reconcile: an iteration runs to its end once it has the lock, and the times it reads are parameters; the machine in ControllerSystem interleaves its steps with everything else.
- Controller.AutoscalerController.HandleScaleUp: the outcomes of CreateNode and the times read are parameters.
- NodeLimits.NodeCap: needs a view that misses no live node when the policy evaluates, and nodes that arrive through CreateNode only, be it after the call has returned.
- NodeLimits.MinimumKept: needs that nodes leave through removals only, reported or not.
- ScaleDown.SpacedIff: stated for a positive cooldown and a positive low-water mark; without the one there is no distance to keep, without the other no node is idle.
- ScaleDown.RemovalsBounded: needs a view that shows the nodes as they are, and nobody uncordoning nodes.
- ControllerSystem.Next: takes the in-flight mutex section as one step, since only the holder of the reconcile lock enters it.
- ClusterState.ClusterState.SetNodes: slices are values; sharing of the caller's backing array is not modelled.
- PodWatcher.PodToInfo: a nil pod, and copying of the selector and tolerations, do not arise with values.
- The pending-pod detector: its substring tests are a predicate passed in.
- Docker and kubeadm calls, readiness polling, informers, HTTP, flags, metrics, log text and generated node names: no decision depends on them; new nodes are identified by index.
- `resource.Quantity` formats and rounding, saturation of time differences, and wall-clock jumps.
