# RisingWave operator: verified model

A Dafny 4.11 model of the parts of the RisingWave operator where several actors write the same
object, or where a fast loop stands for a simple meaning, with proofs over all inputs and all runs.

* **Scale views.** A scale view locks node groups of one component and spreads a total over them.
  `Allocation` says what a right split is (`IsSplit`) and builds the only one by handing out replicas one
  at a time (`Split`), `AllocationLaws` proves conservation, strict priority and least variance.
  `SignedAllocation` extends both to limits below zero, which the schema admits, and `Splitter` proves the
  operator's water-filling loop, with its int32 and int64 arithmetic and its final self-check, equal to that
  for every input. `ScaleViewLocks`, `LockGuard` and `ScaleViewWebhooks` are the lock records, the
  counter loop that guards spec writes, and the admission webhooks. `Protocol` puts them into one
  transition system: scale views created, updated, rescaled, deleted and recreated; locks taken and
  rewritten by compare-and-swap from stale reads; replicas patched without compare-and-swap; arbitrary
  user writes; releases in several steps. `SyncLaws` says what a patch achieves, when it gets through and
  what else it writes, `StuckSyncs` that two scale views that block each other do so for good, and
  `SyncExamples` has two reachable states in which that goes wrong. `Controllers` proves that the
  controllers' methods are the protocol's steps.
* **Environment variables.** `EnvOrder`, `Graphs`, `TopologicalSort` and `EnvOrderLaws` cover the
  in-place dependency sort, `EnvMerge` the keyed merge that builds its input.
* **Conditions and groups.** `StatusManager` is the copy of the status and its condition list,
  `Reconciling` one reconcile with the branches that share that copy, `ConditionMachine` any number of
  reconciles whose branches interleave, with the laws over all runs, and `ConditionExamples` two runs that
  end in opposite statuses. `GroupSync`, `GroupSyncLaws` and `GroupStatus` are the three loops over a
  component's workloads.
* **Privileges.** `AclParser` and `PrivilegeDiff` read access control lists and compute what to grant
  and revoke.

`Lex` has `Option`, joins and the order of Go's `<` on strings, `Integers` the wrapping integers.

## Assumptions

* The API server gives every write a new resource version, rejects a status update from an old one,
  never reuses a uid, and keeps `scalePolicy`, `groupLocks` and `conditions` list-maps by their keys.
* The workflow library (its source is not part of this model): `Sequential` stops at an exit or error,
  `ParallelJoin` and `Join` run their branches in any interleaving of manager calls and wait for all,
  `SequentialJoin` runs the status write after the workflow whatever came of it, `Shared` runs once.
* `container/heap` gives out a smallest element, `sort` a sorted permutation; maps are visited in any order.
* The scale-view webhooks are registered for the resource. `config/webhook/manifests.yaml:93` names
  `risingwavescaleview` in the singular; the locks rely on the webhook being called.
* Release safety is about reads of scale views that are linearizable; the code reads through a cache.
* A policy list has at most 2^31 entries, and the annotation that bypasses the webhook is not set.

## Where code and documents differ

* RFC 0004 says a locked group may always keep its old value. The webhook refuses some such writes:
  `LockGuard.UntouchedAcceptedExactly` has the exact condition, `LockGuard.UnchangedCanBeRefused` an input.
* Two scale views of disjoint groups can block each other, since every spec write is checked against every
  record: `SyncLaws.SyncGetsThroughExactly` has the exact condition for a sync to get through,
  `SyncExamples.ScaleViewsCanBlockEachOther` a reachable state in which neither does, and
  `StuckSyncs.StuckForGood` says that scale-view controllers which grab locks for live versions do not get
  out of it.
* The patch of the scale-view controller carries the whole list of groups and no resource version, so it
  takes back edits of groups that nobody locks: `SyncLaws.SyncFrame` says exactly when,
  `SyncExamples.StalePatchRevertsEdit` gives a run.
* A new scale view cannot have a negative limit (`ScaleViewWebhooks.CreationRefusesNegativeLimits`), but an
  update may set one. Then a group is locked at a negative number, or the allocator's self-check, which is
  meant never to fail, panics: `ScaleViewWebhooks.UpdateBringsNegativeLimit`, and for all limits
  `SignedAllocation.NeverPanicsExactly`.
* `DependsOn` looks at the first occurrence of a reference only. `EnvOrder.ScanMissesExactly` says when
  that loses a dependency, `EnvOrder.EscapedFirstHidesReference` gives one, and
  `EnvOrderLaws.HiddenReferenceComesLate` a list that is sorted wrongly for it.
* `UpdateCondition` means to keep the last transition time of a condition that does not change. It wipes it
  instead when a branch says again what is said already: `ConditionMachine.TransitionTimesExactly` and
  `ConditionExamples.OrderDecidesRunning`.
* A reconcile that passes its barrier and also sees something missing ends with Running on or off,
  depending on which branch comes last: `ConditionMachine.LastBranchDecides` and
  `ConditionExamples.OrderDecidesRunning`.
* A comment at `pkg/manager/risingwave_controller_manager_impl.go:482-483` says no workload of a newer
  generation is deleted. A second workload of a group is, whatever its generation:
  `GroupSyncLaws.ObjectDeletedExactly` and `GroupSyncLaws.DuplicateOfNewerGenerationIsDeleted`.
* A privilege without a character in the access control list, `ALL` among them, never settles:
  `PrivilegeDiff.TargetReachableExactly` and `PrivilegeDiff.UnmappedNameNeverSettles`.

## Model

| member | source | states |
|---|---|---|
| Allocation.SplitIsUnique | pkg/object/scaleview/split.go:79-113 | limits, strict priority, evenness inside a class and the right sum leave only one possible split |
| Allocation.HandOutIsSplit | pkg/object/scaleview/split.go:79-113 | handing out one replica at a time keeps limits, priority and evenness, so a right split exists up to the capacity |
| Allocation.SplitIsExact | pkg/object/scaleview/split.go:115-125 | without negative limits a map is the split if and only if it is right, and there is none exactly for a negative total or one above the capacity |
| Allocation.SplitIsMonotone | pkg/object/scaleview/split.go:82-113 | one more replica raises exactly one group by one and lowers none, across all classes |
| Allocation.SplitIsStable | pkg/object/scaleview/split.go:46-77 | any permutation of the policies gives the same split |
| Allocation.SplitIsFair | pkg/object/scaleview/split.go:95-112 | of two groups of one priority, one that trails by two or more is at its limit |
| Allocation.SplitServesHigherFirst | pkg/object/scaleview/split.go:73-113 | everybody stays within its limit, and a group gets something only if every group of higher priority has its limit |
| Allocation.SplitBreaksTies | pkg/object/scaleview/split.go:61-71 | inside a class the smaller limit, and of equal limits the smaller name, gets as much as the other or one more, or has its limit |
| Allocation.LoneGroupTakesAll | pkg/object/scaleview/split.go:37-44 | a group on its own gets the whole total, up to its maximum, or up to the largest int32 if it has none |
| Lex.LessExactly | pkg/object/scaleview/split.go:69 | one name is less than another if and only if it is a proper prefix of it or has the smaller character where they first differ |
| AllocationLaws.ClassReceivesWhatIsLeft | pkg/object/scaleview/split.go:79-113 | the split adds up to the total, and each priority class gets what the classes above leave, up to the sum of its limits |
| AllocationLaws.StarvedBelow | docs/rfc/0004_component_groups_scale_view.md:116-118 | while a list of higher priority is not full, a lower one has nothing |
| AllocationLaws.ClassHasLeastVariance | docs/rfc/0004_component_groups_scale_view.md:119-120 | no other division of a class's share within the limits has a smaller sum of squares |
| SignedAllocation.SignedSplitIsUnique | pkg/object/scaleview/split.go:79-113 | for limits of any sign, what a served and an unserved group may have, priority, evenness and the right sum leave only one split |
| SignedAllocation.SignedSplitExistsExactly | pkg/object/scaleview/split.go:79-113 | there is one if and only if some prefix of the classes in descending priority has room for the total |
| SignedAllocation.SplitSignedAddsUp | pkg/object/scaleview/split.go:115-125 | what the allocator returns adds up to the total as int32, and exactly if and only if the total is within that reach |
| SignedAllocation.NeverPanicsExactly | pkg/object/scaleview/split.go:115-125 | the allocator serves every total from zero to the largest int32 if and only if the largest is within reach, or the one before it is and the limits wrap to the largest |
| SignedAllocation.SplitSignedIsStable | pkg/object/scaleview/split.go:46-77 | any permutation of the policies gives the same result |
| SignedAllocation.SplitSignedServesHigherFirst | pkg/object/scaleview/split.go:73-113 | for limits of any sign, a group gets something only if every group of higher priority has its limit |
| SignedAllocation.SplitSignedBreaksTies | pkg/object/scaleview/split.go:61-71 | for limits of any sign and beyond the reach, of two groups of one priority the smaller limit, and of equal limits the smaller name, gets as much or one more, or has its limit |
| SignedAllocation.SplitSignedIsSplit | pkg/object/scaleview/split.go:79-125 | without negative limits it is the split of `Allocation` |
| Splitter.SplitReplicas | pkg/object/scaleview/split.go:48-126 | the whole allocator, with grouping, sorting, filling and self-check, for every int32 total and limits: returns the split, or panics exactly for a negative total and for one out of reach that the sum of all limits does not wrap to |
| Splitter.GroupByPriority | pkg/object/scaleview/split.go:49-59 | the map has exactly the priorities that occur, each with its policies in list order |
| Splitter.SortClasses | pkg/object/scaleview/split.go:61-71 | every class is sorted by limit and group whatever the map order |
| Splitter.SortIsSorted | pkg/object/scaleview/split.go:64-70 | of two groups in a sorted class the earlier has the smaller limit, or the same and the smaller name |
| Splitter.DescendingKeys | pkg/object/scaleview/split.go:73-77 | the keys, each once, in descending order |
| Splitter.FillClass | pkg/object/scaleview/split.go:100-112 | filling a sorted class uses up the total or fills everybody, is even, loses nothing, hands out negative limits as they are and otherwise between zero and the limit |
| Splitter.FillNext | pkg/object/scaleview/split.go:101-111 | one turn of that loop, with the 64-bit product, keeps the loop's invariant and takes at most the limit |
| Splitter.SharingStays | pkg/object/scaleview/split.go:95-111 | once the dividing branch is taken in a class it stays taken |
| Splitter.StartSharing | pkg/object/scaleview/split.go:95-111 | when dividing starts, every earlier limit is at most the level and every later one above it |
| Splitter.ShareIs | pkg/object/scaleview/split.go:29-35 | the rounded-up division gives the level, or the level and one while larger shares are left |
| Splitter.ProductFits | pkg/object/scaleview/split.go:102-104 | limit times group count does not leave 64 bits |
| Splitter.ServeClass | pkg/object/scaleview/split.go:82-113 | serving a class, or zeroing it when nothing is left, keeps what the classes so far have right |
| Splitter.LeftIsOutOfReach | pkg/object/scaleview/split.go:79-113 | after the last class something is left if and only if no prefix of the classes has room for the total |
| Splitter.SumReplicas | pkg/object/scaleview/split.go:116-119 | the int32 sum over the map in any order is the true sum wrapped to int32 |
| Integers.WrapsToRange | pkg/object/scaleview/split.go:116-119 | wrapping adds the multiple of 2^32 or 2^64 that brings a number into the range of the type |
| Splitter.Check | pkg/object/scaleview/split.go:115-125 | the self-check lets through exactly the splits, and a total out of reach that the limits wrap to |
| ScaleViewLocks.ScaleViewLockManager.GetScaleViewLockIndex | pkg/object/scale_view_lock_manager.go:33-42 | the first record with the name and the uid |
| ScaleViewLocks.ScaleViewLockManager.IsScaleViewLocked | pkg/object/scale_view_lock_manager.go:53-55 | whether some record has the name and the uid |
| ScaleViewLocks.ScaleViewLockManager.GrabScaleViewLockFor | pkg/object/scale_view_lock_manager.go:63-99 | the first obstacle in list order with its error and unchanged records, or the new record appended |
| ScaleViewLocks.ScaleViewLockManager.GrabOrUpdateScaleViewLockFor | pkg/object/scale_view_lock_manager.go:103-129 | grabs, leaves alone, or rewrites generation and groups of the own record in place; reports an update exactly if the records changed, and none for a record of the same generation |
| ScaleViewLocks.ScaleViewLockManager.ReleaseLockFor | pkg/object/scale_view_lock_manager.go:133-142 | removes the first record with the name and the uid and no other, and reports whether there was one |
| ScaleViewLocks.BuildGroupLocks | pkg/object/scale_view_lock_manager.go:90-95 | one group lock a policy, in list order, with the split's value |
| ScaleViewLocks.CurrentRecordIsKept | pkg/object/scale_view_lock_manager.go:115-117 | a record of the generation at hand is left alone and not reported as updated |
| ScaleViewLocks.OutdatedRecordIsRewritten | pkg/object/scale_view_lock_manager.go:119-128 | a record of another generation gets the one at hand and one group lock a policy with its share of the total; nothing else of it changes, and no other record does |
| ScaleViewLocks.GrabOrUpdateTellsTruth | pkg/object/scale_view_lock_manager.go:103-129 | what is reported as an update is what has changed |
| ScaleViewLocks.GrabIsIdempotent | pkg/object/scale_view_lock_manager.go:103-129 | once a scale view has its lock, asking again changes nothing and reports nothing |
| ScaleViewLocks.GrabAddsRecord | pkg/object/scale_view_lock_manager.go:63-99 | taking a lock panics exactly without a split, fails for the first record in the way, and else adds one record, with the share of every group, at the end |
| ScaleViewLocks.FirstObstacleDecides | pkg/object/scale_view_lock_manager.go:66-83 | the first record in the way decides the error: another uid, the same uid, or the first policy whose group it holds and its name |
| ScaleViewLocks.GrabSucceedsExactly | pkg/object/scale_view_lock_manager.go:66-83 | a lock can be taken if and only if no record has the name and none of the component holds one of the groups |
| ScaleViewLocks.GrabKeepsExclusive | pkg/object/scale_view_lock_manager.go:63-99 | taking a lock keeps names distinct and groups held once |
| ScaleViewLocks.ReplaceKeepsExclusive | pkg/object/scale_view_lock_manager.go:119-128 | the unchecked rewrite keeps exclusion because name, component and groups are the same |
| ScaleViewLocks.SubsequenceKeepsExclusive | pkg/object/scale_view_lock_manager.go:135-139 | removing records keeps exclusion |
| ScaleViewLocks.LockCarriesTotal | pkg/object/scale_view_lock_manager.go:85-96 | the values of a record add up to the scale view's total if and only if that is within reach, and as int32 always |
| LockGuard.RisingWaveScaleViewHelper.ReadReplicas | pkg/scaleview/scale_view_helper.go:112-119 | the replicas of the first group of that name, or nothing |
| LockGuard.RisingWaveScaleViewHelper.WriteReplicas | pkg/scaleview/scale_view_helper.go:122-131 | changes that group only, and reports whether a value changed |
| LockGuard.ReadAfterWrite | pkg/scaleview/scale_view_helper.go:112-131 | a write is read back under its name and nowhere else |
| LockGuard.ListOfComponent | pkg/scaleview/scale_view_helper.go:54-70 | which list of node groups belongs to which component, read and written |
| LockGuard.CheckGroup | pkg/webhook/risingwave_validating_webhook.go:466-493 | one turn of the counter loop reports a group exactly when it is gone, moved away from its lock, or out of line with the groups before, and counts it otherwise |
| LockGuard.CheckRecord | pkg/webhook/risingwave_validating_webhook.go:464-493 | the loop accepts a record if and only if all groups are at their locks, or none moved and those away from their lock come first |
| LockGuard.ValidateUpdate | pkg/webhook/risingwave_validating_webhook.go:457-500 | no error if and only if every record is accepted |
| LockGuard.AcceptedExactly | pkg/webhook/risingwave_validating_webhook.go:464-493 | for every write, a record is accepted if and only if all its groups read their values, or all read as before, absent ones as zero, and none at its value precedes one that is not |
| LockGuard.AcceptedIsAllOrNothing | pkg/webhook/risingwave_validating_webhook.go:464-493 | an accepted write deletes no locked group and moves a scale view's groups all or none |
| LockGuard.HeldStaysHeld | pkg/webhook/risingwave_validating_webhook.go:464-493 | groups at their locks stay there under every accepted write |
| LockGuard.UntouchedAcceptedExactly | docs/rfc/0004_component_groups_scale_view.md:148-151 | a write that leaves locked groups alone, whatever else it changes, is accepted if and only if all of them exist and none at its lock precedes one that is not |
| LockGuard.UnchangedCanBeRefused | docs/rfc/0004_component_groups_scale_view.md:148-151 | an input for which the promise that old values may be kept fails |
| ScaleViewWebhooks.GetScaleViewMaxConstraints | pkg/webhook/risingwave_scale_view_validating_webhook.go:45-59 | the largest int32 if some group is unlimited, else the wrapped sum of the limits |
| ScaleViewWebhooks.ValidateObject | pkg/webhook/risingwave_scale_view_validating_webhook.go:61-93 | no error exactly for a named target with a uid, some policy, and the maximal constraint |
| ScaleViewWebhooks.AcceptedNeverPanics | pkg/webhook/risingwave_scale_view_validating_webhook.go:78-80 | when the allocator panics on an accepted scale view; without negative limits every int32 total from zero on is within reach, wrap-around included |
| ScaleViewWebhooks.CreationRefusesNegativeLimits | pkg/webhook/risingwave_scale_view_mutating_webhook.go:92-108 | no new scale view has a negative limit, since its group's replicas are at least zero |
| ScaleViewWebhooks.UpdateBringsNegativeLimit | pkg/webhook/risingwave_scale_view_validating_webhook.go:133-169 | an accepted update that sets a negative limit: its group is given that number and the other the rest, and the allocator panics if the rest is more than the largest int32 |
| ScaleViewWebhooks.ValidateCreate | pkg/webhook/risingwave_scale_view_validating_webhook.go:95-126 | accepted exactly if the object is, the target can be read, the uid is the target's and the lock could be taken now |
| ScaleViewWebhooks.ValidateUpdate | pkg/webhook/risingwave_scale_view_validating_webhook.go:133-181 | accepted exactly if the object is and target, selector and multiset of groups are as before |
| ScaleViewWebhooks.OrderedIsUnique | pkg/webhook/risingwave_scale_view_validating_webhook.go:154-157 | sorted lists are equal if and only if they hold the same names, which is why comparing sorted lists works |
| ScaleViewWebhooks.UpdateFreezesGroups | pkg/webhook/risingwave_scale_view_validating_webhook.go:133-169 | an accepted update cannot change which groups of which component are locked |
| ScaleViewWebhooks.SetDefault | pkg/webhook/risingwave_scale_view_mutating_webhook.go:63-138 | fills in uid, groups, label selector and the int32 sum of current replicas, and rejects exactly a preset uid, an absent target, a missing group or one above its limit; a target that cannot be read for another reason counts as empty |
| ScaleViewWebhooks.SelectorText | pkg/webhook/risingwave_scale_view_mutating_webhook.go:41-62 | the text of the label selector: the name, the word for the component, the groups in order |
| GroupStatus.DefaultTotalIsTarget | pkg/webhook/risingwave_scale_view_mutating_webhook.go:82-115 | a scale view without policies can always be created and starts with the target of its component |
| ScaleViewWebhooks.UnreadableTargetIsRefused | pkg/webhook/risingwave_scale_view_mutating_webhook.go:63-78 | the read error that the mutating webhook ignores leaves no uid, so the validating webhook refuses the object |
| ScaleViewWebhooks.SumCurrent | pkg/webhook/risingwave_scale_view_mutating_webhook.go:88-113 | the loop's sum and its errors |
| ScaleViewWebhooks.FirstLockConserves | pkg/webhook/risingwave_scale_view_mutating_webhook.go:88-113 | the first lock of a new scale view redistributes the current replicas and loses none |
| Protocol.StepKeepsInv | pkg/manager/risingwave_scale_view_controller_manager_impl.go:63-135 | every step keeps versions, live scale views, lock records and sweeps consistent |
| Protocol.InvOverRuns | pkg/manager/risingwave_scale_view_controller_manager_impl.go:63-135 | hence every state of every run is consistent |
| Protocol.MutualExclusion | pkg/object/scale_view_lock_manager.go:63-129 | at every resource version of every run, record names are distinct and no group of a component is held twice |
| Protocol.RecordsAgreeWithOwners | pkg/manager/risingwave_scale_view_controller_manager_impl.go:63-95 | every record is the split of an accepted version of its owner at the recorded generation, carries that total exactly if it is within reach, as it is without negative limits, and is never newer than the live owner |
| Protocol.CurrentGrabIsIdle | pkg/manager/risingwave_scale_view_controller_manager_impl.go:71-94 | while the record of a scale view is of the generation at hand, asking for the lock writes nothing |
| Protocol.GrabThenIdle | pkg/manager/risingwave_scale_view_controller_manager_impl.go:71-94 | a grab that goes through adds one version with a record of the generation at hand and leaves the node groups, and the next grab from it writes nothing |
| SyncLaws.SyncHoldsExactly | pkg/manager/risingwave_scale_view_controller_manager_impl.go:98-135 | a patch that gets through puts all locked groups at their values if and only if all of them are in the list the controller has read |
| SyncLaws.SyncReachesTotal | pkg/manager/risingwave_scale_view_controller_manager_impl.go:98-135 | a patch that gets through while its scale view has a record, of whatever generation and however stale the read, puts all groups at their values, which add up to the scale view's total if and only if it is within reach |
| SyncLaws.NothingToWriteHoldsExactly | pkg/manager/risingwave_scale_view_controller_manager_impl.go:116-126 | a sync that finds nothing to write finds the groups at their values exactly if they all exist, and then they add up to the total exactly if it is within reach |
| SyncLaws.SyncGetsThroughExactly | pkg/webhook/risingwave_validating_webhook.go:457-500 | a sync from the current version that has something to write gets through if and only if its groups exist and every other record has its groups and none at its value before one that is not |
| SyncLaws.MidMoveBlocksOthers | pkg/webhook/risingwave_validating_webhook.go:457-500 | one other record in the way stops every sync of a scale view that holds a record, from every read, however old, that agrees with the current list of its component |
| SyncLaws.SyncFrame | pkg/manager/risingwave_scale_view_controller_manager_impl.go:116-133 | a patch leaves a group outside its lock alone if and only if the controller's read agrees with the current list on it; other components and the records stay |
| StuckSyncs.StuckForGood | pkg/webhook/risingwave_validating_webhook.go:457-500 | once two records stand in each other's way, no run of syncs from any read, lock updates for live versions and status writes moves any node group |
| SyncExamples.ScaleViewsCanBlockEachOther | pkg/webhook/risingwave_validating_webhook.go:457-500 | a reachable state in which two live scale views with current records are away from their values and neither can sync |
| SyncExamples.BlockedViewsAreStuck | pkg/webhook/risingwave_validating_webhook.go:457-500 | that state is stuck for good |
| SyncExamples.StalePatchRevertsEdit | pkg/manager/risingwave_scale_view_controller_manager_impl.go:116-133 | a reachable state in which a sync from an old read takes back an accepted edit of a group that nobody locks |
| Protocol.SyncWrote | pkg/manager/risingwave_scale_view_controller_manager_impl.go:116-133 | what the whole-list patch from a possibly stale read writes, and that the guard let it |
| Protocol.StepKeepsHeld | pkg/webhook/risingwave_validating_webhook.go:459-494 | one step, by anybody and however stale, keeps held groups held |
| Protocol.HeldOverRuns | pkg/webhook/risingwave_validating_webhook.go:459-494 | locked replicas stay at their values over any run until their record is rewritten or released |
| Protocol.SweepIsSafe | pkg/controller/risingwave_controller.go:391-425 | a release removes only records whose owner is gone, all whose owner was gone when it began, and loses no lock taken meanwhile |
| Protocol.SweepIsExact | pkg/controller/risingwave_controller.go:391-425 | with no deletion in between it keeps exactly the records whose owner lives |
| Controllers.ApiServer.UpdateStatus | pkg/manager/risingwave_scale_view_controller_manager_impl.go:80-87 | a status update succeeds from the current resource version and otherwise conflicts and changes nothing |
| Controllers.ApiServer.PatchSpec | pkg/webhook/risingwave_validating_webhook.go:457-500 | a spec write applies to whatever is current if the guard accepts it |
| Controllers.ScaleViewController.GrabOrUpdateScaleViewLock | pkg/manager/risingwave_scale_view_controller_manager_impl.go:63-95 | is the protocol's grab step, marks the lock as held and requeues exactly if the write went through, and goes on exactly if the target is another object or the record is current |
| Controllers.ScaleViewController.SyncGroupReplicasToRisingWave | pkg/manager/risingwave_scale_view_controller_manager_impl.go:98-135 | is the protocol's sync step; retries exactly while the record is missing or outdated, and fails exactly if there is something to write and the guard rejects it |
| Controllers.WriteLocked | pkg/manager/risingwave_scale_view_controller_manager_impl.go:116-123 | the loop's list is all locks applied, and the flag says whether it differs from the original |
| Controllers.AppliedChangesExactly | pkg/manager/risingwave_scale_view_controller_manager_impl.go:116-123 | writing all locked values changes something if and only if some group is there with another number |
| Controllers.ScaleViewController.SyncGroupReplicasStatusFromRisingWave | pkg/manager/risingwave_scale_view_controller_manager_impl.go:165-184 | reports the int32 sum of what runs in the groups, or zero and unlocked off target |
| Controllers.RisingWaveController.ReleaseScaleViewLock | pkg/controller/risingwave_controller.go:391-425 | is the end of a sweep, a compare-and-swap to the kept records, leaves them alone if a scale view cannot be read, and conflicts exactly if some record goes and somebody wrote in between |
| Controllers.AliveRecords | pkg/controller/risingwave_controller.go:396-420 | keeps, in order, the records whose scale view is found with the same uid, or gives up exactly if one cannot be read |
| Controllers.KeptExactly | pkg/controller/risingwave_controller.go:396-420 | a record is kept if and only if its scale view is found with the same uid |
| EnvOrder.ScanDependsOn | pkg/utils/sort.go:68-92 | whether the first reference is preceded by an even number of dollar signs, by the loop that counts them |
| EnvOrder.DependsOnExactly | pkg/utils/sort.go:68-92 | character by character: there is a dependency if and only if the first place where '$', '(', the name and ')' stand in a row follows a run of '$' of even length |
| EnvOrder.ReferenceDependsOnName | pkg/utils/sort.go:68-92 | a value that is one reference depends on the variable of that name and on no other |
| EnvOrder.PlainDependsOnNothing | pkg/utils/sort.go:68-92 | a value without '$' depends on nothing |
| EnvOrder.ScanMissesExactly | pkg/utils/sort.go:68-92 | the scan never invents a dependency and misses one exactly when its first occurrence is escaped and a later one is not |
| EnvOrder.EscapedFirstHidesReference | pkg/utils/sort.go:69 | an input whose reference is missed |
| EnvOrderLaws.SortRespectsReferences | pkg/utils/sort.go:68-150 | without cycles a variable comes after every variable it refers to, but for references that the scan misses |
| EnvOrderLaws.PairInOrderExactly | pkg/utils/sort.go:68-150 | of two variables, one of which refers to the other, the referenced one comes first if and only if the reference is seen or its name is smaller |
| EnvOrderLaws.ReferencedComesFirst | pkg/utils/sort.go:94-150 | a variable whose value is a reference to the other comes after it, however the two are named and given |
| EnvOrderLaws.HostAfterAddress | pkg/utils/sort.go:94-150 | HOST, which refers to HOST_IP and is given first, is put second |
| EnvOrderLaws.MutualPairTurnsRound | pkg/utils/sort.go:106-116 | of two variables that depend on each other the earlier one waits, so the sort turns them round |
| EnvOrderLaws.HiddenReferenceComesLate | pkg/utils/sort.go:68-150 | a list whose sort puts a variable before one that it refers to |
| Graphs.CompleteExactlyWhenAcyclic | pkg/utils/sort.go:118-140 | a greedy order of ready nodes reaches every node if and only if there is no cycle |
| Graphs.LeftOutMeansCycle | pkg/utils/sort.go:118-140 | nodes left out are stuck behind a cycle |
| TopologicalSort.BuildGraph | pkg/utils/sort.go:96-116 | in-degrees count and child lists hold exactly the edges, each once |
| TopologicalSort.RecordEdge | pkg/utils/sort.go:108-114 | recording a new edge keeps counts and lists in step |
| TopologicalSort.ReleaseChildren | pkg/utils/sort.go:132-139 | after a pop every in-degree counts predecessors not yet popped, and those that reach zero are queued |
| TopologicalSort.Pop | pkg/utils/sort.go:128-140 | one turn takes a ready variable of smallest name and keeps the search invariant |
| TopologicalSort.Kahn | pkg/utils/sort.go:96-140 | the order always takes a ready variable of smallest name and stops when none is ready |
| TopologicalSort.WriteBack | pkg/utils/sort.go:142-149 | the slice becomes the rearrangement by the order, positions past its end unchanged |
| TopologicalSort.Sort | pkg/utils/sort.go:95-150 | the in-place sort is the rearrangement by a greedy order |
| EnvOrderLaws.SortRespectsDependencies | pkg/utils/sort.go:94-150 | without cycles the result is a permutation in which every variable comes after all it depends on |
| EnvOrderLaws.SortIsRightExactly | pkg/utils/sort.go:94-150 | the sort places every variable after all it depends on if and only if there is no cycle of dependencies |
| EnvOrderLaws.SortPlacesAllExactly | pkg/utils/sort.go:118-140 | all variables are placed if and only if the graph has no cycle |
| EnvOrderLaws.SortIsCanonical | pkg/utils/sort.go:118-150 | each position holds the smallest name whose dependencies are all placed before |
| EnvOrderLaws.SameVariablesSameOrder | pkg/utils/sort.go:94-150 | any two arrangements of the same variables sort to the same list |
| EnvMerge.MergeListByKey | pkg/factory/risingwave_object_factory_common.go:83-93 | writes over the first entry with the key, in the list it was given, or else appends to a copy and leaves that list alone |
| EnvMerge.MergeListWhenKeyEquals | pkg/factory/risingwave_object_factory_common.go:71-81 | the same with equality to the new value's key |
| EnvMerge.MergeRefinesOverride | pkg/factory/risingwave_object_factory.go:1581-1600 | folding the merge is map override: names stay distinct, no name moves, later values win |
| EnvMerge.Container.SetupMeta | pkg/factory/risingwave_object_factory.go:1580-1600 | the environment means defaults, overridden by the template, the state store and the meta store; the template's own list is not written to |
| EnvMerge.Container.SetupWorker | pkg/factory/risingwave_object_factory.go:2041-2056 | the same for compute and compactor, without a meta store |
| EnvMerge.Container.SortEnv | pkg/factory/risingwave_object_factory_common.go:30-34 | sorts the container's environment in place |
| EnvMerge.EnvDependsOnMeaningOnly | pkg/factory/risingwave_object_factory_common.go:30-52 | two lists that mean the same end up as the same sorted list |
| StatusManager.RisingWaveManager.GetCondition | pkg/object/risingwave_manager.go:75-83 | reads the snapshot, never the copy |
| StatusManager.RisingWaveManager.UpdateCondition | pkg/object/risingwave_manager.go:171-192 | replaces the first condition of the type in the copy, else appends, with the time of the call if it says something else than the snapshot |
| StatusManager.RisingWaveManager.RemoveCondition | pkg/object/risingwave_manager.go:152-166 | takes out the first condition of the type |
| StatusManager.RisingWaveManager.SyncObservedGeneration | pkg/object/risingwave_manager.go:144-149 | sets the observed generation to the snapshot's generation and nothing else |
| StatusManager.RisingWaveManager.KeepLock | pkg/object/risingwave_manager.go:238-243 | replaces the lock records and nothing else |
| StatusManager.RisingWaveManager.UpdateRemoteRisingWaveStatus | pkg/object/risingwave_manager.go:203-213 | writes nothing if nothing changed, and otherwise swaps the copy in or conflicts |
| StatusManager.UpdateActsAsMap | pkg/object/risingwave_manager.go:171-192 | an update keeps types unique, replaces the condition of one type only and moves none |
| StatusManager.RemoveActsAsMap | pkg/object/risingwave_manager.go:152-166 | a removal keeps types unique and forgets one type only |
| Reconciling.Plan | pkg/controller/risingwave_controller.go:439-485 | the barriers, evaluated on the snapshot, decide each branch's program |
| Reconciling.Perform | pkg/controller/risingwave_controller.go:221-286 | each action closure makes the manager call that the machine's step makes |
| Reconciling.OpenShared | pkg/controller/risingwave_controller.go:361-368 | the shared part begins with the step that records the generation |
| Reconciling.KeepAlive | pkg/controller/risingwave_controller.go:391-425 | the release action is the machine's step on the records |
| Reconciling.CollectRunningStatistics | pkg/manager/risingwave_controller_manager_impl.go:355-425 | from services, configuration and the status built of the workloads seen, the running status branch makes the machine's step |
| Reconciling.Finish | pkg/controller/risingwave_controller.go:194-211 | the status write is the machine's last step, a swap from the version read or a conflict |
| ConditionMachine.StepKeepsInv | pkg/controller/risingwave_controller.go:439-494 | every interleaved step of every reconcile keeps the invariant |
| ConditionMachine.ConditionsOverRuns | pkg/controller/risingwave_controller.go:439-494 | at every resource version of every run types are unique, Running is present once there are conditions, and an initializing cluster is not running |
| ConditionMachine.StatusWriteLeavesRunning | pkg/controller/risingwave_controller.go:439-494 | every status write of a reconcile leaves a Running condition |
| ConditionMachine.RunningIsHereToStay | pkg/controller/risingwave_controller.go:439-494 | after the first status write of a reconcile Running is present at every later version |
| ConditionMachine.InitializingNeverReturns | pkg/controller/risingwave_controller.go:443-457 | Initializing, once removed, never returns, and the list never becomes empty again |
| ConditionMachine.RunningTurnsOnOnlyWhenReady | pkg/controller/risingwave_controller.go:459-466 | Running turns true only with the current generation observed and after a barrier that saw every workload rolled out at that generation or not to be synced, each of some node group, and one for every node group |
| ConditionMachine.PassedIsRolledOut | pkg/manager/risingwave_controller_manager_impl.go:602-635 | the barrier over all components opens if and only if every workload is rolled out and not older than the generation, and workloads and node groups match |
| ConditionMachine.RunningTurnsOffExactlyWhenMissing | pkg/manager/risingwave_controller_manager_impl.go:355-421 | from a running state, a write turns Running off if and only if its reconcile found a service, the configuration or an expected group missing, and otherwise leaves it on |
| ConditionMachine.RunningRecoversExactly | pkg/controller/risingwave_controller.go:459-466 | from a state that is not running, a reconcile that finds nothing missing turns Running on if and only if its barrier passed, and none does without |
| ConditionMachine.LastBranchDecides | pkg/controller/risingwave_controller.go:459-494 | in every run, of the branch that turns Running on and the one that turns it off, the last to call decides what a write from a state that is not running leaves, and both have called if the barrier passed and something was missing |
| ConditionExamples.OrderDecidesRunning | pkg/controller/risingwave_controller.go:459-494 | two runs that differ in the order of two branches only and end with Running on and with Running off, its transition time lost |
| ConditionMachine.TransitionTimesExactly | pkg/object/risingwave_manager.go:168-176 | a status write gives every condition that changes the time of its own last call about it and keeps that of the others, but wipes it exactly where Running is marked off again or Upgrading on again |
| ConditionMachine.FirstStatusInitializes | pkg/controller/risingwave_controller.go:443-448 | every status write to a cluster without conditions says Initializing and not Running |
| ConditionMachine.PhasesEndOnlyWhenReady | pkg/controller/risingwave_controller.go:450-485 | Initializing is removed and Upgrading taken back only by a reconcile whose barrier saw every component ready at the current generation |
| ConditionMachine.UpgradingEndsExactly | pkg/controller/risingwave_controller.go:468-485 | from an upgrading cluster, a write takes Upgrading back if and only if its barrier passed and otherwise leaves it on; where there is again an unsynced generation the last of the two branches to call decides |
| ConditionMachine.UpgradingStartsExactly | pkg/controller/risingwave_controller.go:468-475 | from a cluster that is not upgrading, a write marks Upgrading if and only if the cluster runs and has a generation nobody has synced, and otherwise leaves it as it was |
| ConditionMachine.InitializingEndsExactly | pkg/controller/risingwave_controller.go:450-457 | from an initializing cluster, a write removes Initializing if and only if its barrier passed |
| ConditionMachine.StatusWriteHasLookedAndReleased | pkg/controller/risingwave_controller.go:487-494 | no status is written before the reconcile has looked for missing parts and gone through the lock records, and its records are those kept |
| ConditionMachine.UpgradingStartsOnlyForNewGeneration | pkg/controller/risingwave_controller.go:468-475 | Upgrading turns on only for a running cluster whose generation nobody has synced |
| ConditionMachine.UnobservedGenerationLeavesMark | pkg/controller/risingwave_controller.go:468-485 | a new generation seen while running is synced to the end in that reconcile or leaves Upgrading set |
| ConditionMachine.ObservedGenerationIsMonotone | pkg/controller/risingwave_controller.go:361-368 | the observed generation never goes back and never runs ahead of the generation |
| Reconciling.PassedSightHasNothingMissing | pkg/manager/risingwave_controller_manager_impl.go:602-635 | what passes the barrier has nothing missing for the running status |
| Reconciling.SeesMissingExactly | pkg/manager/risingwave_controller_manager_impl.go:355-421 | missing is the configuration, the service of some component, or all workloads of some node group |
| Reconciling.WorkloadNamesDiffer | pkg/factory/risingwave_object_factory.go:207-232 | no two groups of one object, of whatever components, have workloads of one name |
| GroupSync.NamesDiffer | pkg/factory/risingwave_object_factory.go:207-232 | workload names of different groups differ |
| GroupSync.NameSpelled | pkg/factory/risingwave_object_factory.go:207-232 | the name is the prefix alone for the group without a name, else the prefix, a dash and the group |
| GroupSync.Plan | pkg/manager/risingwave_controller_manager_impl.go:448-480 | the two loops decide what to delete, in list order, and which groups to sync from what |
| GroupSync.Cluster.SyncObject | pkg/manager/risingwave_controller_manager_impl.go:785-853 | creates if the name is free, replaces an outdated object, after an update refused as invalid by delete and create; what each answer leaves, and that it succeeds exactly if all its calls do; panics exactly on a different name |
| GroupSync.Cluster.SyncComponentGroupWorkloads | pkg/manager/risingwave_controller_manager_impl.go:432-505 | what a pass leaves under every name for any list when it completes, which it does only if all calls succeed, what can stand there when some call fails, and when it panics |
| GroupSyncLaws.ObjectDeletedExactly | pkg/manager/risingwave_controller_manager_impl.go:454-474 | deleted are exactly later objects of a group and objects of unexpected groups with a smaller generation |
| GroupSyncLaws.GroupSyncedExactly | pkg/manager/risingwave_controller_manager_impl.go:454-480 | worked on are exactly the expected groups without an object and those whose first object has a smaller generation |
| GroupSyncLaws.DuplicateOfNewerGenerationIsDeleted | pkg/manager/risingwave_controller_manager_impl.go:459-483 | an object of a newer generation that a pass deletes |
| GroupSyncLaws.NeverMisnamed | pkg/manager/risingwave_controller_manager_impl.go:752-773 | with names that follow groups the name check cannot panic |
| GroupSyncLaws.PassLeavesWanted | pkg/manager/risingwave_controller_manager_impl.go:432-505 | what stands under every group's name after a pass |
| GroupSyncLaws.PassConverges | pkg/manager/risingwave_controller_manager_impl.go:432-505 | every expected group is present, nothing is outdated, and every up-to-date object is untouched |
| GroupSyncLaws.PassUpdatesExactly | pkg/manager/risingwave_controller_manager_impl.go:746-748 | by generation: an object with none or with one that is not smaller is left alone, one with a smaller is brought to the one at hand if its group is expected and deleted if not |
| GroupSyncLaws.PassMeetsGeneration | pkg/manager/risingwave_controller_manager_impl.go:432-505 | after a pass no object has a smaller generation, every expected group has one, and created ones are of the generation at hand |
| GroupSyncLaws.SecondPassIsIdle | pkg/manager/risingwave_controller_manager_impl.go:432-505 | the next pass deletes, creates and updates nothing |
| GroupSyncLaws.StoppedPassIsHarmless | pkg/manager/risingwave_controller_manager_impl.go:484-505 | a pass that stops at any failed call touches no up-to-date object and does not change what is wanted |
| GroupSyncLaws.RetryConverges | pkg/manager/risingwave_controller_manager_impl.go:484-505 | a pass that stops anywhere and then one that does not leave the same cluster as a single pass in which every call succeeds |
| GroupStatus.WaitComponentGroupWorkloadsReady | pkg/manager/risingwave_controller_manager_impl.go:602-635 | continues if and only if every object is rolled out, not of a smaller generation and of an expected group, and every expected group has one |
| GroupStatus.BarrierOpensExactly | pkg/manager/risingwave_controller_manager_impl.go:602-635 | the same in terms of generations and group names |
| GroupStatus.BuildNodeGroupStatus | pkg/manager/risingwave_controller_manager_impl.go:98-154 | int32 sums, one entry an object, one a missing group, sorted by name |
| GroupStatus.BarrierAgreesWithStatus | pkg/manager/risingwave_controller_manager_impl.go:602-635 | the barrier continues if and only if all is ready and the status of the same objects has no missing and no unexpected entry |
| GroupStatus.ReadyStatus | pkg/manager/risingwave_controller_manager_impl.go:98-154 | after the barrier the status lists just the expected groups with their targets |
| GroupStatus.RunningAddsUp | pkg/manager/risingwave_controller_manager_impl.go:98-154 | group by group the entries add up to what is ready in the workloads, and all of them to the number the status gives, as int32 |
| GroupStatus.EntriesSayTarget | pkg/manager/risingwave_controller_manager_impl.go:120-158 | an entry has the target of its group, zero if it is not expected, and nothing running if it is not there |
| GroupStatus.TargetsAddUp | pkg/manager/risingwave_controller_manager_impl.go:105-118 | the target is the plain sum of the replicas of the node groups |
| GroupStatus.LastOfNameCounts | pkg/manager/risingwave_controller_manager_impl.go:105-118 | of node groups of one name the last counts as what is expected |
| GroupStatus.MissingReportedExactly | pkg/manager/risingwave_controller_manager_impl.go:144-158 | a missing entry appears if and only if an expected group has no object |
| AclParser.ParseACL | pkg/rwclient/acl_parser.go:38-85 | the loops read the entries that are well formed, in order |
| AclParser.ScanPrivileges | pkg/rwclient/acl_parser.go:68-80 | the index loop that skips stars reads each character with its grant option |
| AclParser.StarGivesOption | pkg/rwclient/acl_parser.go:68-80 | a star after a privilege is its grant option, any other character is a privilege of its own |
| AclParser.EntryCountsExactly | pkg/rwclient/acl_parser.go:45-66 | an entry counts if and only if it is a grantee, '=', privileges, '/' and a grantor with no other '=' and '/', and then says what its parts say |
| AclParser.TrimTakesBraces | pkg/rwclient/acl_parser.go:38-43 | nothing but the braces at both ends is taken off, and all of them are |
| AclParser.TwoGrantees | pkg/rwclient/acl_parser.go:37-85 | a list as a server writes it, for any two grantees: what stands where |
| AclParser.RenderInvertsParse | pkg/rwclient/acl_parser.go:68-80 | every privilege string whatever can be recovered from what is read |
| AclParser.ParseInvertsRenderExactly | pkg/rwclient/acl_parser.go:68-80 | a privilege list comes back if and only if no star of its own follows a privilege without grant option |
| AclParser.AclRoundTrip | pkg/rwclient/acl_parser.go:37-85 | parsing inverts rendering for all lists whose names avoid the delimiters |
| PrivilegeDiff.FetchPrivileges | pkg/rwclient/privilege_snapshot.go:208-230 | one row for each entry of the user that maps to something, with its grant option |
| PrivilegeDiff.MapPrivileges | pkg/rwclient/privilege_snapshot.go:211-222 | the mapped names in order, unmapped characters left out |
| PrivilegeDiff.AnyOptionExactly | pkg/rwclient/privilege_snapshot.go:211-222 | the row's grant option is set exactly if some mapped privilege has it |
| PrivilegeDiff.CharactersStandFor | pkg/rwclient/acl_parser.go:87-131 | which character stands for which privilege of which kind of object, and that no other stands for any |
| PrivilegeDiff.OnePrivilegeReads | pkg/rwclient/privilege_snapshot.go:208-230 | a list that gives a user one privilege, with or without grant option, reads as just that |
| PrivilegeDiff.FirstEntryCounts | pkg/controller/risingwave_user_controller.go:915-921 | of several entries for a user the first that reads as anything counts, on tables |
| PrivilegeDiff.RowsReadHeld | pkg/rwclient/privilege_snapshot.go:208-230 | with one entry a grantee, what is read is what the user holds |
| PrivilegeDiff.CalculateDiff | pkg/rwclient/privilege_diff.go:34-76 | grants and revokes are the two set differences, each name once |
| PrivilegeDiff.CalculateObjectDiff | pkg/rwclient/privilege_diff.go:124-180 | the same in sorted order |
| PrivilegeDiff.DiffReachesTarget | pkg/rwclient/privilege_diff.go:124-180 | revoking then granting reaches exactly the desired set, touches nothing right, and is empty if and only if the sets agree |
| PrivilegeDiff.ObjectDiffIsCanonical | pkg/rwclient/privilege_diff.go:150-177 | the sorted lists depend on the two sets only |
| PrivilegeDiff.RoundReachesTarget | pkg/rwclient/privilege_diff.go:124-180 | from list to list: after one round the list reads as the desired set and a fresh diff is empty |
| PrivilegeDiff.TargetReachableExactly | pkg/rwclient/acl_parser.go:87-131 | some list reads as the desired set if and only if every desired name has a character |
| PrivilegeDiff.UnmappedNameNeverSettles | pkg/rwclient/privilege_diff.go:124-180 | a desired name without a character is granted again for ever, whatever the list says |

## Left out

- Kubernetes caches, watches, rate limits, requeue times, events, metrics and logging.
- The bypass annotation.
- Other checks of the RisingWave webhook (meta, state and secret store): they only reject more.
- Status fields besides observed generation, conditions and locks, and the branch that sets the state store root path.
- Standalone and OpenKruise mode: their branches are the same with other workload lists.
- EnvMerge.Container.SetupMeta: arguments, ports, probes, volumes and which variables the factory generates are not modelled.
- EnvMerge.MergeListWhenKeyEquals: spare capacity behind a Go slice, into which `append` may write, is not modelled; no list sees it.
- StatusManager.RisingWaveManager.UpdateCondition: condition lists are values replaced as a whole; the mutex is the atomicity of each call; reason and message are not modelled.
- ConditionMachine.RunningTurnsOnOnlyWhenReady: the barrier's check that the meta service can be reached is not modelled.
- GroupSync.Cluster.SyncComponentGroupWorkloads: a delete takes effect at once, and the list is the cluster at the start of the pass.
- AclParser.ParseACL: strings are sequences of characters; the source goes byte by byte, which is the same for ASCII lists.
- PrivilegeDiff.CalculateDiff: SQL text, quoting, grant options in the diff, the target `*` and the server's expansion of `ALL` are not modelled.
- PrivilegeDiff.FetchPrivileges: for databases the last row of a user counts and an empty row too; with one entry a grantee this makes no difference.
- Meta role labels, the StatefulSet pod deletion strategy, image, date and feature flag parsing, password generation: only easy facts.
