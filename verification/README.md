# Verified models of the DRC repair agent's kernels

This project models the algorithmic kernels of the DRC repair agent in Dafny and proves what they are relied on for.

| kernel | modules | main result |
|---|---|---|
| polygon legality | Segments, Polygons, CandidateGeometry | among polygons with area, the integer checks accept exactly those whose boundary is a simple closed curve over real points |
| region clustering | Forests, UnionFinds, Clustering, SoftMerges, SoftOrder, RegionBuild | regions partition the violations, hard links are never cut, over-cap regions are untouched hard components, no permitted soft merge is missed, and soft links are accepted greedily in the order of their evidence |
| resource leases | Leases, LeaseSafety, LeaseReclaim, Arbiter, OrphanProbe | live operations never exceed the limit in any reachable state; exactly when an admission raises; exactly when the orphan probe is sound |
| DOF domains | Divisibility, IntervalUnions, DofDomains | exact and canonical; exactly when the result is independent of order and of how unions are written |
| batching and attribution | Batching, BatchContents, Attribution | fewest batches among contiguous groupings, and what each batch holds; why the bisection ends, within its budget |
| connectivity components | Outlines, Connectivity, ConnectivityReport | same component exactly when joined by uniquely matched paths |
| transactions | Accounting, Evidence, Commit | exactly-once settlement with the status owed, and the exact condition under which it fails; commits only on complete evidence, progress over runs |
| context truncation | ContextBudget, ContextFacts, ContextFlag | terminates for any estimator; what is left mentions exactly what was retained; exactly when the truncated flag works |
| local topology | Separation, Topology | integer gaps are exact over real points; adjacencies are exactly the close pairs |

Basics, Boxes and Orders hold shared vocabulary. `dafny verify dfyconfig.toml` checks everything.

## What the proofs found

- Closing a ledger is not guaranteed. In the decorator at `src/drc_agent/backends/transaction.py:171-181`, a storage
  incident is recorded before the ledger is reached. If that call raises, the ledger stays open; that it can raise is an
  assumption, since the function is not part of this model. `Accounting.LeaksIff` is the exact condition, and
  `Accounting.FullDiskLeaks` names such calls. The doc string promises a terminal record in every case.
- `require_connectivity` and `reject_new_violations` have no effect: a SUCCESS outcome already demands both.
  `require_drc_progress` has none with a count-consistent scorer. If only the scorer's totals are those of the reports,
  every commit lowers the total exactly when that setting is on; without that, some commit raises it under every setting.
- With a manufacturing grid of zero, `intersect_dof_domains` raises or returns an empty domain depending on the order of
  the domains, exactly when some but not all of their interval lists are empty.
- RECLAIMED can be logged twice for one lease. RELEASED cannot.
- The orphan probe can miss living work: an owner, or a worker that is not an EDA worker, on another host; or a running
  container whose inspection fails. `OrphanProbe.SoundIffCovered` is the exact condition.
- `truncated` can be false although context was dropped: whenever what goes first is a source slice, an endpoint, an
  adjacency, a landing, a history or a fragment.
- A score can be reported beside ERROR evidence, when the DRC_VERIFIED record could not be written.

## Assumptions

- Hashes are injective. A component id stands for its sorted members, a fragment id for its object and violation.
- An identifier string is a natural number, its place in string order: the code only compares and hashes identifiers.
- Violation ids and object ids are unique where a contract says so.
- Leases: starting a worker and recording it is one atomic action; no worker is started and recorded over a recorded
  worker that still runs; the orphan probe is sound; `close` and `clear_worker` happen only after the recorded worker is
  done. Other record writes may fail before, after or in the middle, and log appends before or after the line is on disk.
- Calls into tools, files and the network, and every exception they may raise, are parameters.

## Model

| member | source | states |
|---|---|---|
| Segments.SegmentsIntersectIsExact | src/drc_agent/actions/candidates.py:53-63 | the integer test is true exactly when some real s, t in [0, 1] name one point of both segments, for all integer end points, zero-length and collinear segments included |
| Segments.OnSegmentIsContains | src/drc_agent/actions/candidates.py:41-50 | orientation zero plus the bounding-box test decide that a point lies on the closed real segment |
| Segments.CrossingMeets | src/drc_agent/actions/candidates.py:56-57 | different orientations on both sides guarantee a common real point |
| Segments.CollinearOverlap | src/drc_agent/actions/candidates.py:58-63 | collinear segments with a common point have an end of one on the other, so four one-point tests suffice |
| CandidateGeometry.PolygonIsSimple | src/drc_agent/actions/candidates.py:66-80 | the nested loop with its skips decides: distinct vertices, and no two non-neighbouring edges share a real point |
| CandidateGeometry.SetSizeDecidesDistinct | src/drc_agent/actions/candidates.py:67-68 | the size of the vertex set decides that no vertex is repeated |
| Polygons.NeighboursShareOnlyVertex | src/drc_agent/actions/candidates.py:72-76 | neighbouring edges, which the loop never compares, share only their common vertex once the other checks pass: no fold-back |
| Polygons.AcceptedIsSimple | src/drc_agent/actions/candidates.py:66-80 | at least three points, non-zero area and a passing loop give a closed curve that visits no real point twice |
| Polygons.SimpleIsAccepted | src/drc_agent/actions/candidates.py:66-80 | no simple closed curve is rejected by the loop |
| Polygons.AcceptedIffSimple | src/drc_agent/actions/candidates.py:651-659 | for at least three points and non-zero area the loop decides simplicity over real points, both directions |
| Polygons.CollinearTriangle | src/drc_agent/actions/candidates.py:36-38 | the shoelace value of a triangle is its signed orientation value, so collinear corners have no area |
| Polygons.AreaIsFan | src/drc_agent/actions/candidates.py:36-38 | for three or more corners the shoelace area is the absolute value of the summed signed areas of the triangles fanned from the first corner, so every edge counts, the closing one too |
| CandidateGeometry.VerticesDecideBoundary | src/drc_agent/actions/candidates.py:660-664 | all vertices inside the die boundary means every real point of every edge is inside it, and conversely |
| CandidateGeometry.CheckPolygon | src/drc_agent/actions/candidates.py:653-664 | accepts exactly grid-aligned, simple, non-degenerate polygons inside the die; the reported defect is one whose earlier checks passed |
| CandidateGeometry.CheckGeometry | src/drc_agent/actions/candidates.py:651-668 | the level-3 loop accepts exactly when every edit is legal, and otherwise reports a defect that some edit has |
| Forests.HalvingKeepsRoot | src/drc_agent/regions/builder.py:28-32 | one step of path halving moves no root |
| Forests.LinkMovesRoot | src/drc_agent/regions/builder.py:38-40 | hanging the larger root under the smaller merges the two classes and touches no other |
| Forests.MergeRepresents | src/drc_agent/regions/builder.py:34-40 | if the classes are the reachability classes of some edges, after union they are those of the edges plus the new one |
| Forests.RootsAreDetermined | src/drc_agent/regions/builder.py:24-40 | two union-finds over the same ids and edges have the same roots, whatever the order of unions |
| UnionFinds.UnionFind.Find | src/drc_agent/regions/builder.py:28-32 | find terminates, returns the least element of the class and keeps every class |
| UnionFinds.UnionFind.Union | src/drc_agent/regions/builder.py:34-40 | union gives both classes the smaller root and leaves all other roots alone |
| UnionFinds.UnionFind.Groups | src/drc_agent/regions/builder.py:42-46 | one group per class, groups by least member, members sorted |
| UnionFinds.AddEdge | src/drc_agent/regions/connectivity.py:36-43 | union seen as adding an edge: classes stay the reachability classes of all edges so far |
| UnionFinds.GroupingPartitions | src/drc_agent/regions/builder.py:42-46 | the groups partition the ids into the classes of the forest |
| UnionFinds.GroupingIsDetermined | src/drc_agent/regions/builder.py:42-46 | groups() depends on the edges united, not on the order of unions |
| Clustering.CapOk | src/drc_agent/regions/builder.py:131-141 | the folding loop decides the four caps, span measured between any two seeds |
| Clustering.SplitPartitions | src/drc_agent/regions/builder.py:143-161 | splitting loses and duplicates no seed, and leaves over the caps only single seeds or pieces that share an object |
| Clustering.Halves | src/drc_agent/regions/builder.py:149-161 | the cut taken leaves two non-empty parts that together hold the seeds |
| Clustering.SharesObjectIff | src/drc_agent/regions/builder.py:146-148 | the test that stops splitting holds exactly when some object stands at two places among the seeds, in one seed or in two |
| Clustering.SeedDictIsLast | src/drc_agent/regions/builder.py:242-243 | the dict holds the last seed of each violation id |
| Clustering.NearIsReach | src/drc_agent/regions/builder.py:249 | two seeds are near exactly when some real points of their halos are at most the largest gap apart |
| Clustering.HardLinkIff | src/drc_agent/regions/builder.py:109-112 | a near pair is hard-linked exactly when the two seeds have an editable object of the same id |
| Clustering.AllEdges | src/drc_agent/regions/builder.py:247-253 | the pairs met by the nested loop are exactly the hard links |
| RegionBuild.HardPhase | src/drc_agent/regions/builder.py:244-255 | after the first loop two violations are in one class exactly when hard links connect them, and the edge list holds exactly the near pairs |
| RegionBuild.Touching | src/drc_agent/regions/builder.py:260 | the members tested are exactly the two classes about to be merged |
| SoftMerges.SettledStays | src/drc_agent/regions/builder.py:258-262 | once a soft link lies in one class or joins two that together exceed the caps, later merges keep it so |
| SoftMerges.CapsAreAntitone | src/drc_agent/regions/builder.py:131-141 | taking seeds away never breaks a cap |
| SoftOrder.TestsDecide | src/drc_agent/regions/builder.py:258-261 | the two tests of the loop decide acceptance: the ends are not connected, and what is connected to either fits the caps together |
| SoftOrder.AcceptedIsGreedy | src/drc_agent/regions/builder.py:256-262 | over the sorted edges, a soft link is accepted exactly when its ends are apart and fit the caps together after the hard links and the accepted links of earlier turn: larger overlap, then larger gap score, then smaller ids |
| SoftOrder.GreedyIsDetermined | src/drc_agent/regions/builder.py:256-262 | only one set of links is greedy in that order |
| RegionBuild.SoftPhase | src/drc_agent/regions/builder.py:256-262 | for any evidence and order: every class stays an untouched hard class or one that passed the caps, every soft link ends up in one class or between two that together exceed the caps, classes grow only along links, and they are the classes of the hard links and of the links accepted in turn |
| RegionBuild.ComponentSharesObject | src/drc_agent/regions/builder.py:146-148 | a hard component of two or more violations shares an object, so the splitter returns it whole |
| RegionBuild.GroupIsNotSplit | src/drc_agent/regions/builder.py:264-265 | the splitter is the identity on every group build hands it |
| RegionBuild.Build | src/drc_agent/regions/builder.py:239-271 | regions partition the violations, hard-linked violations stay together, an over-cap region is exactly one hard component, alone or sharing an object; no soft link that the caps permit is left unmerged, and only chains of links join a region; the regions are the classes of the hard links and of the greedy soft links, in the order of their evidence |
| LeaseSafety.StepKeepsInv | src/drc_agent/infrastructure/resource_arbiter.py:422-505 | every step of admission, reclaim, failed admission, release, worker start and crash keeps the invariant |
| LeaseSafety.Capacity | src/drc_agent/infrastructure/resource_arbiter.py:426-505 | in every reachable state the live operations of a kind, open leases and orphaned workers together, are at most its limit |
| LeaseSafety.SlotsAreDistinct | src/drc_agent/infrastructure/resource_arbiter.py:426-450 | two live operations of a kind never share a slot |
| LeaseSafety.RunningWorkersAreLive | src/drc_agent/infrastructure/resource_arbiter.py:246-261 | every running worker counts as live: its lease is open or it is an orphan on its slot |
| LeaseSafety.ReadmissionOnlyAfterDeath | src/drc_agent/infrastructure/resource_arbiter.py:440-478 | a HELD record is replaced by another lease only when its owner is dead and its worker is not running |
| LeaseSafety.NoRunningWorkerAtAdmission | src/drc_agent/infrastructure/resource_arbiter.py:480-504 | no lease is handed out on a slot on which a worker still runs |
| LeaseSafety.AuditLog | src/drc_agent/infrastructure/resource_arbiter.py:485-504 | a returned lease has exactly one ACQUIRED event; RELEASED occurs at most once and never with RECLAIMED |
| LeaseSafety.AbandonedSlotIsReclaimable | src/drc_agent/infrastructure/resource_arbiter.py:446-504 | a slot whose owner crashed and whose worker stopped can be admitted again by any live process |
| LeaseSafety.FreeSlotIsAdmitted | src/drc_agent/infrastructure/resource_arbiter.py:446-504 | a slot whose record is not HELD can be admitted by any live process, whatever still runs there |
| LeaseReclaim.ReclaimedTwice | src/drc_agent/infrastructure/resource_arbiter.py:446-454 | a run from the empty pool that logs RECLAIMED twice for one lease: a reclaimer dies before writing its own record |
| LeaseReclaim.ReclaimedIsPossibleIff | src/drc_agent/infrastructure/resource_arbiter.py:440-505 | in a reachable state RECLAIMED can still be logged for an issued lease exactly when its slot's record is HELD for it, or it is open and its owner may write that record again |
| LeaseSafety.TornSpawnBreaksCapacity | src/drc_agent/infrastructure/resource_arbiter.py:215-221 | without the assumption that a worker start and its record write are one action, a worker and a new lease can share a slot |
| LeaseSafety.SecondSpawnBreaksCapacity | src/drc_agent/infrastructure/resource_arbiter.py:246-261 | without the assumption that no worker is recorded over one that still runs, the first worker and a new lease can share a slot |
| Arbiter.Arbiter.TryAcquire | src/drc_agent/infrastructure/resource_arbiter.py:422-505 | works on the first slot that is neither locked nor owned: a lease with exactly one ACQUIRED event if nothing goes wrong there, an exception if something does, and no lease only if all slots are taken; slot record and log are as the faults say, every other lock and record is as before |
| Arbiter.OutcomeIff | src/drc_agent/infrastructure/resource_arbiter.py:426-505 | an exception exactly when at the first free slot the RECLAIMED event over a HELD record, the HELD write or the ACQUIRED event goes wrong; a lease exactly when none does; nothing exactly when no slot is free |
| Arbiter.Arbiter.Examine | src/drc_agent/infrastructure/resource_arbiter.py:428-445 | an owned slot is left as it was, any other is locked with its record read |
| Arbiter.Arbiter.Admit | src/drc_agent/infrastructure/resource_arbiter.py:446-505 | after the probe found nobody: a lease, or an exception with the lock given back |
| Arbiter.Arbiter.Publish | src/drc_agent/infrastructure/resource_arbiter.py:475-504 | the HELD record is written, and a lease whose ACQUIRED event failed is not handed out |
| Arbiter.Arbiter.Announce | src/drc_agent/infrastructure/resource_arbiter.py:485-504 | if ACQUIRED cannot be logged, the record says RELEASED when the back-out write was stored, the lock is given back and nothing is handed out |
| Arbiter.Arbiter.UpdateWorker | src/drc_agent/infrastructure/resource_arbiter.py:246-261 | a released lease raises; otherwise the worker starts and is on the slot's record in one action, and nothing else changes |
| Arbiter.Arbiter.ClearWorker | src/drc_agent/infrastructure/resource_arbiter.py:263-273 | nothing happens on a released lease; otherwise the record is what the write without the worker left, and nothing else changes |
| Arbiter.Arbiter.Close | src/drc_agent/infrastructure/resource_arbiter.py:275-308 | a second close does nothing; the first gives the lock back whichever write fails, leaves what the RELEASED write left and logs RELEASED only after it was stored |
| OrphanProbe.Probe | src/drc_agent/infrastructure/resource_arbiter.py:179-198 | the probe reports an owner exactly for a live local identity, a container found active, or an EDA worker on another host |
| OrphanProbe.LocalIsSeen | src/drc_agent/infrastructure/resource_arbiter.py:126-138 | a living process of this host is never reported dead, even with ticks or boot id missing |
| OrphanProbe.LocalIsExact | src/drc_agent/infrastructure/resource_arbiter.py:130-138 | with ticks and boot id recorded, a local process is reported alive only while it lives |
| OrphanProbe.SoundIffCovered | src/drc_agent/infrastructure/resource_arbiter.py:148-198 | the probe overlooks no living work exactly when an EDA worker is remote, or the container is found active, or everything recorded is local and the container, if any, could be inspected |
| OrphanProbe.SoundWhateverDockerSays | src/drc_agent/infrastructure/resource_arbiter.py:148-198 | whatever the inspection answers, the probe is sound exactly when an EDA worker is remote, or everything recorded is local and no container is on record |
| OrphanProbe.Overlooked | src/drc_agent/infrastructure/resource_arbiter.py:148-198 | in every other case: living work that the probe does not see, such as a running container whose inspection timed out |
| OrphanProbe.FreedIff | src/drc_agent/infrastructure/resource_arbiter.py:126-198 | the probe answers false exactly when neither recorded process is seen in the process table, no running container is reported and no EDA worker is recorded on another host |
| OrphanProbe.OwnedIffLiving | src/drc_agent/infrastructure/resource_arbiter.py:126-198 | with full local identities and an answered inspection the slot stays taken exactly while a recorded process lives or the container runs |
| Divisibility.LcmDivides | src/drc_agent/repair_kernel/executable.py:18 | an integer is a multiple of the lcm exactly when it is a multiple of every grid |
| Divisibility.LcmZero | src/drc_agent/repair_kernel/executable.py:18 | the lcm is zero exactly when some grid is |
| DofDomains.SnapUpKeeps | src/drc_agent/repair_kernel/executable.py:24 | the lower end snapped up loses no grid point, negative coordinates included |
| DofDomains.SnapDownKeeps | src/drc_agent/repair_kernel/executable.py:24 | the upper end snapped down loses no grid point, negative coordinates included |
| DofDomains.ClipAndSnap | src/drc_agent/repair_kernel/executable.py:21-26 | one domain's intervals, clipped and snapped, hold exactly the grid points it allows; a zero grid raises as soon as there is an interval |
| IntervalUnions.MeetIn | src/drc_agent/repair_kernel/executable.py:28-29 | the pairwise intersection of two unions holds exactly their common points |
| IntervalUnions.SortAndMerge | src/drc_agent/repair_kernel/executable.py:30-35 | sorting and merging keeps the grid points and yields the canonical form |
| IntervalUnions.CanonicalUnique | src/drc_agent/repair_kernel/executable.py:30-35 | canonical lists with the same grid points are equal |
| DofDomains.IntersectDofDomains | src/drc_agent/repair_kernel/executable.py:14-39 | the result is canonical and exact: a grid point is in it exactly when every domain allows it; division by zero exactly when the loop meets an interval with a zero grid |
| DofDomains.GridIsCommonGrid | src/drc_agent/repair_kernel/executable.py:18 | an integer is on the returned grid exactly when it is on every domain's own grid |
| DofDomains.SameResultIff | src/drc_agent/repair_kernel/executable.py:14-39 | domains that mean the same give the same result exactly when no grid is zero or their first lists are both empty or both non-empty |
| DofDomains.OrderDoesNotMatterIff | src/drc_agent/repair_kernel/executable.py:14-39 | the result is the same for every order of the domains exactly when no grid is zero or the lists of intervals are all empty or all non-empty |
| DofDomains.PermutedSameMeaning | src/drc_agent/repair_kernel/executable.py:20-38 | permuting the domains does not change what they mean |
| DofDomains.ZeroGridDependsOnOrder | src/drc_agent/repair_kernel/executable.py:18-24 | with a zero grid the order matters: one order returns an empty domain, the other divides by zero |
| Batching.Schedule | src/drc_agent/coordinator/batching.py:42-114 | the batches are the segments of a greedy grouping of the pending bundles around the deferred ones |
| Batching.Accumulator.Flush | src/drc_agent/coordinator/batching.py:67-87 | an empty batch is never emitted, otherwise the open segment becomes a batch and the accumulators are emptied |
| Batching.PendingIsSorted | src/drc_agent/coordinator/batching.py:50-60 | pending bundles are in bundle-id order |
| BatchContents.PendingIsWaiting | src/drc_agent/coordinator/batching.py:50-60 | with unique bundle ids: pending are, each once and in id order, the bundles that select a known candidate that is no noop; a repeated candidate id stands for its last candidate |
| BatchContents.ItemContents | src/drc_agent/coordinator/batching.py:53-57 | a bundle brings in the known non-noop ids it selects, sorted and each as often as selected, and the objects affected by one of them, or targeted where none is affected |
| BatchContents.BatchHolds | src/drc_agent/coordinator/batching.py:89-112 | the candidates of a batch are exactly the known non-noop ids that its bundles select, and its object count is the number of objects these modify |
| Batching.GreedyStaysAhead | src/drc_agent/coordinator/batching.py:89-113 | the k-th greedy batch ends no earlier than the k-th batch of any limit-respecting contiguous grouping |
| Batching.GreedyIsOptimal | src/drc_agent/coordinator/batching.py:89-113 | no contiguous limit-respecting grouping that skips the deferred bundles has fewer batches |
| Batching.ScheduleIsOptimal | src/drc_agent/coordinator/batching.py:42-114 | every batch is non-empty and within both limits, and the schedule has the fewest batches |
| Batching.BundlesAreKept | src/drc_agent/coordinator/batching.py:89-113 | every bundle that is not deferred appears whole, once and in sorted order, with all its candidates |
| Attribution.CeilLog2IsLeast | src/drc_agent/coordinator/batching.py:147-165 | the logarithm in the replay bound is the least power of two that covers the candidates |
| Attribution.TryHalves | src/drc_agent/coordinator/batching.py:151-162 | the halves are replayed in turn within the budget, and a half is taken only if its replay failed |
| Attribution.Bisect | src/drc_agent/coordinator/batching.py:146-165 | what remains is reached by taking the first failing half each time; it ends when one candidate is left, the budget is spent, or neither half fails; at most the budget and twice the logarithm of replays; with a single culprit and enough budget it is what remains |
| Attribution.SourceDisjoint | src/drc_agent/coordinator/batching.py:185-199 | the accumulating pass decides pairwise disjointness of anchors and objects |
| Attribution.CandidateIdsAre | src/drc_agent/coordinator/batching.py:127 | the ids attributed to are those of the candidates, sorted |
| Attribution.Attribute | src/drc_agent/coordinator/batching.py:118-183 | with replays enabled the reproduced ids are what the bisection leaves, if that is less than all; causality is claimed exactly for one candidate or one reproduced candidate, and only then are violation ids reported |
| Outlines.CanonicalPolygon | src/drc_agent/regions/connectivity.py:46-56 | the result is a rotation of the points or of their reversal, and the least of all of them |
| Outlines.CanonicalDecidesOutline | src/drc_agent/regions/connectivity.py:46-56 | two canonical polygons are equal exactly when one point list is a rotation of the other or of its reversal |
| Outlines.CanonicalIsIdempotent | src/drc_agent/regions/connectivity.py:46-56 | the canonical polygon of a canonical polygon is itself |
| Connectivity.IndexObjects | src/drc_agent/regions/connectivity.py:69-81 | the index lists, under layer and canonical polygon, exactly the routing objects with that key |
| Connectivity.ResolveIsUniqueMatch | src/drc_agent/regions/connectivity.py:92-107 | an endpoint resolves to an object exactly when that object alone lies on its layer and draws its outline; it is ambiguous exactly when two do |
| Connectivity.MatchPaths | src/drc_agent/regions/connectivity.py:83-108 | every endpoint is resolved, and matched ids and the three counters are what the endpoints say |
| Connectivity.UnitePaths | src/drc_agent/regions/connectivity.py:110-113 | the union-find classes are the reachability classes of paths with two resolved endpoints |
| ConnectivityReport.PathEdgesIff | src/drc_agent/regions/connectivity.py:110-113 | two objects are joined directly exactly when some path has them as the only matches of its start and of its end |
| Connectivity.MapConnectivityComponents | src/drc_agent/regions/connectivity.py:59-143 | matched objects get the set of objects joined to them, all others are unchanged, and the report counts endpoints, matches, objects and components |
| Connectivity.MatchedMeansUniqueEndpoint | src/drc_agent/regions/connectivity.py:90-103 | an object is matched exactly when it alone draws an endpoint of some path |
| Connectivity.SameComponentIffJoined | src/drc_agent/regions/connectivity.py:110-121 | two matched objects carry the same component id exactly when a chain of matched paths joins them |
| Connectivity.MappingIgnoresPathOrder | src/drc_agent/regions/connectivity.py:69-143 | listing the paths in another order changes neither objects nor report |
| Connectivity.ReportCountsObjects | src/drc_agent/regions/connectivity.py:134-142 | with unique object ids, mapped plus unavailable is the number of objects, mapped counts the objects given a component, and there are no more components than those |
| ConnectivityReport.ReportCountsEndpoints | src/drc_agent/regions/connectivity.py:83-105 | the two counters are the numbers of endpoints, two for each path, that exactly one object draws and that several draw |
| Accounting.Accounts.OpenLedger | src/drc_agent/backends/transaction.py:59-97 | a ledger exists once its reservation is claimed, and is open and active even if registering it fails |
| Accounting.Accounts.CloseActive | src/drc_agent/backends/transaction.py:112-133 | terminal() settles the ledger once, even if its record or finish_claim raises, and does nothing the second time |
| Accounting.Accounts.Prepare | src/drc_agent/backends/transaction.py:412-507 | at most two attempts, the second only after the first was closed by a retryable preparation error; what it journals as terminal is EXECUTION_FAILURE for attempts with such an error |
| Accounting.Accounts.Execute | src/drc_agent/backends/transaction.py:413-1236 | how many ledgers there are, whether the last is open, and what is raised, on every way out; terminal records carry the status of the work, or EXECUTION_FAILURE after a preparation error |
| Accounting.Accounts.Settle | src/drc_agent/backends/transaction.py:148-214 | the decorator settles the active ledger unless recording a storage incident raises first; the status is CANCELLED exactly for a cancellation that hides no full disk, and what is raised is determined |
| Accounting.Accounts.AccountedExecute | src/drc_agent/backends/transaction.py:141-214 | on every exit path each constructed ledger is terminal and its reservation finished exactly once, if and only if the call does not leak; the journal only grows, every terminal record added carries the status that its attempt is owed, and the caller gets the exception named |
| Accounting.ExitInFields | src/drc_agent/backends/transaction.py:412-1236 | which exception leaves execute with the ledger open, which with it closed, how many attempts there were, and when a result is returned, in terms of what the environment does |
| Accounting.PhaseFaultIsFirst | src/drc_agent/backends/transaction.py:103-109 | a phase record stops the work exactly when it is the first that fails outside a try of its own |
| Accounting.Accounts.RecordPhases | src/drc_agent/backends/transaction.py:103-109 | the phase records on disk are those up to the first uncaught failure that were not lost |
| Accounting.TerminalClosesRecord | src/drc_agent/backends/transaction.py:112-126 | writing a terminal record gives the open attempt its only one and leaves the counts of the others |
| Accounting.FullDiskLeaks | src/drc_agent/backends/transaction.py:165-181 | a call that does leak: the disk is full for a phase record and for the incident record |
| Accounting.LeaksIff | src/drc_agent/backends/transaction.py:141-214 | a call leaks exactly when a storage exception from registering, preparing or working meets an open ledger and recording the incident raises, in terms of what the environment does |
| Accounting.PreparationErrorsLeakIff | src/drc_agent/backends/transaction.py:413-437 | calls whose attempts end in preparation errors leak exactly when registering an attempt fills the disk and recording that incident raises |
| Evidence.Gather | src/drc_agent/backends/transaction.py:625-824 | evidence is VALID up to the stage that failed, ERROR there and NOT_EVALUATED after it, with that stage's outcome; all VALID exactly when nothing failed |
| Evidence.AbortedIff | src/drc_agent/backends/transaction.py:625-824 | execute raises exactly when, with all earlier stages answered, a tool raises, the journal does after the layout, or a report check crashes |
| Evidence.ValidIff | src/drc_agent/backends/transaction.py:625-824 | a stage is VALID exactly when its and all earlier tools answered: they succeeded, the layout was journalled, a report was accepted at first or on the one retry, the score was recorded, the readings parse; NOT_EVALUATED exactly when an earlier one did not |
| Evidence.FailureIff | src/drc_agent/backends/transaction.py:625-824 | the outcome is that of the first stage that did not answer, CANCELLED exactly when that stage's own tool was cancelled |
| Evidence.ReadingsAreTold | src/drc_agent/backends/transaction.py:719-824 | the evidence carries the readings of the stages that passed, and the score exactly when DRC ran and a report was accepted |
| Commit.EvaluateAcceptance | src/drc_agent/evaluation/policy.py:14-40 | accepted exactly when the outcome is SUCCESS and no ground applies; the reasons are exactly the grounds that apply |
| Commit.AcceptableMeansDeserves | src/drc_agent/backends/transaction.py:857-954 | the record built from the evidence is accepted exactly when all stages passed, sanity and connectivity hold, nothing is new, something is removed, and progress is made if required |
| Commit.RecordIsTold | src/drc_agent/backends/transaction.py:857-945 | the record in terms of the attempt: with complete evidence GDS_SANITY_FAILURE exactly for a failed sanity reading, else CONNECTIVITY_FAILURE, NEW_DRC_INTRODUCED, DRC_NO_PROGRESS or SUCCESS by the readings and counts; residual, new and removed counts are those of the score taken |
| Commit.ExecutePrepared | src/drc_agent/backends/transaction.py:625-1055 | COMMITTED exactly when accepted, with complete evidence; the committed total is the attempted one then and the old one otherwise; it raises exactly when a stage does, the markers do not fit the score, or an accepted attempt has no total; the record is as RecordIsTold says |
| Commit.TwoSettingsAreInert | src/drc_agent/evaluation/policy.py:14-40 | requiring connectivity and rejecting new violations never change a verdict |
| Commit.SettingsAreInertWhenConsistent | src/drc_agent/evaluation/policy.py:14-40 | with a count-consistent scorer no acceptance setting changes a verdict |
| Commit.CommitMayAddViolations | src/drc_agent/backends/transaction.py:914-1055 | under every setting and from any total, some commit raises the total, if the scorer's totals are not those of the reports |
| Commit.CommitsLowerTotalIffRequired | src/drc_agent/evaluation/policy.py:28-33 | when the scorer's totals are those of the two reports, every commit lowers the total exactly when the settings require progress |
| Commit.CommitLowersTotal | src/drc_agent/backends/transaction.py:1042-1055 | with a count-consistent scorer a commit lowers the total by what was removed and a rollback keeps it |
| Commit.RunsMakeProgress | src/drc_agent/backends/transaction.py:1042-1055 | over any run of transactions there are at most as many commits as violations removed from the initial total |
| Commit.TotalsFall | src/drc_agent/backends/transaction.py:1042-1055 | the total never rises along a run, and drops strictly over any part with a commit |
| Commit.DrcValidIffReached | src/drc_agent/backends/transaction.py:625-750 | DRC evidence is VALID exactly when the script, layout and DRC stages all passed, whatever happened afterwards |
| Commit.ValidDrcIsBacked | src/drc_agent/backends/transaction.py:692-741 | behind VALID DRC evidence stand a generated layout, a report that validated, from the first run or from the one retry, and a recorded score |
| Commit.ScoreWithoutEvidence | src/drc_agent/backends/transaction.py:720-750 | a score stands beside ERROR evidence exactly when only recording DRC_VERIFIED failed |
| ContextBudget.DroppableFalls | src/drc_agent/agents/context.py:473-522 | every round of the loop takes exactly one droppable item, so it ends for any estimator |
| ContextBudget.DropKeepsTrimmed | src/drc_agent/agents/context.py:473-522 | every drop keeps prefixes, drop order, and rule facts and witnesses in step with the violations left |
| ContextBudget.Truncate | src/drc_agent/agents/context.py:471-522 | ends within the target with no needless last drop, or raises because the minimum context is over it |
| ContextBudget.ExhaustedIsMinimum | src/drc_agent/agents/context.py:519-522 | when nothing is left to drop, the context is the minimum: one violation, one message, one object without its slice |
| ContextBudget.ViolationsGoLate | src/drc_agent/agents/context.py:473-498 | a dropped violation means no slice, frozen object, endpoint, adjacency, landing or history is left and at most one message |
| ContextFacts.FiltersAgree | src/drc_agent/agents/context.py:523-548 | filtering after the loop and inside it agree: facts are the original ones restricted to what is retained |
| ContextFacts.Relate | src/drc_agent/agents/context.py:585-628 | an object is related to a violation exactly when some retained violation has it as a candidate |
| ContextFacts.Build | src/drc_agent/agents/context.py:471-683 | the final context is trimmed and within budget, and all computed facts are as specified, or the minimum context is over the target |
| ContextFacts.OnlyRetainedIsMentioned | src/drc_agent/agents/context.py:523-670 | maps, witnesses, associations and choices mention only retained violations, rules and objects |
| ContextFacts.WitnessesOfRetainedStay | src/drc_agent/agents/context.py:501-504 | with unique violation ids every witness of a retained violation is retained |
| ContextFacts.WitnessesStay | src/drc_agent/agents/context.py:499-530 | with unique violation ids a witness is in the result exactly when it was given and names a retained violation, and as often; during truncation, when it names no dropped one |
| ContextFacts.RuleFactsStay | src/drc_agent/agents/context.py:503-550 | in each of the five maps, exactly what was known of the rules of retained violations is left, unchanged |
| ContextFacts.SummaryCounts | src/drc_agent/agents/context.py:531-533 | the summary has exactly the rules of retained violations and counts their violations |
| ContextFacts.EvidenceIff | src/drc_agent/agents/context.py:551-561 | the evidence that may be cited is that of retained violations, their witnesses, the messages and the blueprint |
| ContextFacts.ChoicesIff | src/drc_agent/agents/context.py:573-581 | the segments and vias offered are the retained editable objects of that kind that some violation allows and that are traceable |
| ContextFacts.AssociationsStay | src/drc_agent/agents/context.py:592-596 | every retained violation comes back with its id and rule, associated with exactly the retained ones of its objects |
| ContextFacts.LastSurvives | src/drc_agent/agents/context.py:588-597 | the last witness given for a retained violation is the one consulted |
| ContextFacts.ChangeableIff | src/drc_agent/agents/context.py:592-628 | an object may be changed for a retained violation exactly when it is a retained editable object and the violation's last witness names it, if exact; else, when a retained object is associated, it is associated; else, when it lies near |
| ContextFacts.DecidingWitnessRules | src/drc_agent/agents/context.py:597-608 | where a witness decides, an object may be changed for its violation exactly when the witness names it |
| ContextFlag.FlagWorksIff | src/drc_agent/agents/context.py:671-682 | over every estimator and budget, truncated tells whether anything was dropped exactly when nothing can be dropped or the first kind to go is frozen objects, messages, violations or editable objects |
| ContextFlag.NothingLost | src/drc_agent/agents/context.py:473-522 | if what goes first is counted and the four counted lists kept their lengths, nothing at all was dropped |
| ContextFlag.FirstLossIsMissed | src/drc_agent/agents/context.py:473-522 | otherwise the first drop leaves all four counted lists as they were |
| ContextFlag.FlagFailsInARun | src/drc_agent/agents/context.py:471-682 | for every start for which the flag does not work, some estimator makes build return a context, and whatever it returns lost something that the flag does not show |
| ContextFlag.LostSliceIsMissed | src/drc_agent/agents/context.py:671-682 | an input: a single editable object whose source slice is dropped comes back with truncated false |
| ContextFlag.OneSliceIsReturned | src/drc_agent/agents/context.py:471-522 | and for that input the minimum context fits, so build does return a context |
| Separation.OutwardGapIsLeastReach | src/drc_agent/regions/topology.py:106-112 | the outward gap is at most n exactly when some real points of the boxes are at most n apart |
| Separation.OutwardGapSymmetric | src/drc_agent/regions/topology.py:106-112 | the gap does not depend on the order of the boxes |
| Separation.NoGapMeansIntersects | src/drc_agent/schemas/common.py:103-110 | the gap is zero exactly when the boxes intersect, and always when they overlap |
| Separation.IntersectionIsExact | src/drc_agent/regions/topology.py:115-120 | there is an intersection exactly when the insides of the boxes meet, and it holds exactly their common points |
| Topology.BuildFragments | src/drc_agent/regions/topology.py:164-242 | one fragment for every violation and source object that fit, and both indexes list exactly the fragments of the table |
| Topology.FragmentIff | src/drc_agent/regions/topology.py:172-179 | a violation and an object have a fragment exactly when the object is a drawn routing source on one of the violation's layers and its inside meets that of the window |
| Topology.WindowIsReach | src/drc_agent/regions/topology.py:167-171 | the window holds exactly the points that are, along both axes, within the larger of the minimum and the marker's sides of some point of the marker |
| Topology.FragmentsAreClippings | src/drc_agent/regions/topology.py:173-176 | a fragment holds exactly the points its object and the window of its violation share |
| Topology.SameLayer | src/drc_agent/regions/topology.py:280-302 | the nested loop lists exactly the close same-layer pairs of different parents, in increasing order |
| Topology.AdjacencyIsReach | src/drc_agent/regions/topology.py:280-302 | two fragments are listed, and then once, exactly when they are on one layer, of different parents, and some of their points are within the window; the gap listed is the least bound on the distance of their points |

## Left out

- Clustering: halo overlap ratio, gap score and centroids are floating-point; the soft-merge decision and the two sort keys are an arbitrary function of the seeds, cut scores are real, and the gap of two halos is compared through exact squares.
- Clustering: `_associate`, `_seed`, lineage, and the region fields other than violation ids and the over-cap flag; the final order by hashed region id.
- RegionBuild.Build: the order and the merge flag of soft links are proved to be obeyed for any evidence, but how overlap and gap score are computed is floating-point and not modelled. The regions' object ids and boxes are not modelled, because no claimed property depends on them.
- Polygons.AcceptedIffSimple: does not say that the area test rejects no simple polygon; non-zero area stays a condition of its own.
- CandidateGeometry: levels 1, 2 and 4, semantic and locality heuristics.
- Arbiter: the polling loop, timeouts, QUEUED and timeout events, and the async bridge around `_try_acquire`; a process's slot files are one shared pool of records and locks.
- OrphanProbe.Probe: an inspection of the container that answers is assumed to tell the truth.
- Arbiter.Arbiter.UpdateWorker: the record write that can raise after the worker started is taken as one action with the start; `LeaseSafety.TornSpawnBreaksCapacity` shows that the protocol needs it. A second start over a recorded worker that still runs, which the code accepts, is excluded; `LeaseSafety.SecondSpawnBreaksCapacity` shows why.
- Arbiter.Arbiter.ClearWorker: a call while the recorded worker still runs, which the code accepts, is excluded by assumption.
- Arbiter.Arbiter.Close: a close while the recorded worker still runs, which the code accepts, is excluded by assumption.
- Batching.Schedule: batch ids, the snapshot and the replan flag.
- Connectivity.MapConnectivityComponents: JSON reading; an endpoint whose layer or points cannot be read is one malformed value; a point with fewer than two coordinates raises IndexError, which the code does not catch, and is not modelled. `sorted(values)` of a component is the identity there, because members are collected in sorted order.
- Accounting: phase details and failure codes; what follows a prepared job is any sequence of phase records and then an exception or a terminal record.
- Accounting.Accounts.Execute: `storage_pause_from_exception` and `finish_claim` are not part of this model beyond what they decide or raise.
- Evidence.Gather: artifact copies, publication and cleanup after the verdict, each of which can still raise and then closes the ledger through the decorator.
- Commit.ExecutePrepared: the lists of removed and new violation ids; only their counts reach the policy. `is_better_snapshot` is a comparison of one tuple.
- ContextFacts.Build: how the initial context is assembled; the estimate after the facts are computed is not bounded, since the code reserves 256 tokens for them but does not check.
- ContextFacts.Relate: the geometric test between an object and a violation's marker is an arbitrary predicate.
- Topology: route endpoints, via landings, via-metal adjacencies and coverage counters; indexes are sets, as the code sorts and deduplicates them at the end.
- Topology.BuildFragments: violations are visited in the given order instead of sorted; the tables do not depend on it.
- CLI, configuration, schemas, LLM providers, agent graphs, experience and metrics: plumbing or flat validation.
