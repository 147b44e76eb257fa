# Verified model of the cStor CSI driver

A Dafny model of the logic of the OpenEBS cStor CSI driver that is hard to get right by reading
one function at a time: who may work on a volume on one node, which node owns a volume's
attachment record, how a volume grows, how it is detached and remounted.
`dafny verify dfyconfig.toml` checks everything.

## What is modelled

**The transition protocol of one node** (`Transition.dfy`, `Monitor.dfy`, `NodeDriver.dfy`).
`TransitionVolList` and `ReqMountList` are shared by five request handlers, the mount monitor, its
remount workers and the cleanup workers. The rule behind it is the "Concurrency" section of the CSI
specification v1.4.0: no two calls in flight per volume. `Transition` is a step system over the two
maps and the live workers; a step is one critical section or the return of a worker, and what the
outside world answers is a parameter of the step, so a theorem about all runs is one about all
interleavings.
`NodeDriver.Driver` is the same code as a class: its methods take and release the lock, loop over
lists and change the maps. Each action of the system is one method (`StartNode`, `AddVolume`,
`WriteStatus`, `RemoveVolume`, `MonitorTick`, `MonitorEnd`, `FinishRemount`, `FinishDetach`) that is
proved to make exactly that step.

Two things can break the rule. `Cleanup` marks a volume without looking for an entry; a run is
*guarded* when every mark hits a volume that nobody holds. And when the update of a cleanup worker
fails, the worker goes on with the object that the failed update returned and deletes the entry under
that object's name, which the model leaves open; a run is *benign* when it is never a volume that
somebody else holds. The main results are equivalences: over every run, the whole invariant holds in
all states if and only if the run is guarded and benign; over every benign run, each volume has at
most one live holder throughout if and only if the run is guarded. With `REMOUNT` off every run is
guarded; with `REMOUNT` on there is a benign run, for every volume and every two request kinds, in
which the unguarded mark lets a second request in. A stray release lets one in even with `REMOUNT`
off, and when the name is not the worker's own volume, the worker's entry leaks and blocks its volume
until the next mark.

**Attachment records** (`Cluster.dfy`, `Ownership.dfy`, `Overlap.dfy`, `Attachments.dfy`, `Naming.dfy`). The API
server is a map of versioned objects with a deletion mark and a finalizer. `Cluster` has every request
that the Stage, Unstage, Publish and cleanup handlers of all nodes make to it as a separate step.
Besides what every run keeps, it has what can be reached: a Stage succeeds, takes a volume over from
nodes that are down, and succeeds after one that failed in its login.
`Attachments.ApiServer` is `prepareVolumeForNode` with its loops, undisturbed by other nodes.

**Resize** (`Rounding.dfy`, `Resize.dfy`), **detach and remount** (`Detach.dfy`, `Remount.dfy`),
**the readiness wait** (`Readiness.dfy`), **node choice** (`Topology.dfy`) and **snapshot
identifiers** (`Snapshot.dfy`).

## Assumptions

- The node name from the environment and the one from the command line are the same.
- `Cluster`: requests carry a non-empty staging path; a handler starts only when its node has no other
  one for the volume, which is what the transition protocol provides in guarded and benign runs
  (`Transition.AdmittedIff`), and `Overlap` is the same system without that rule; record names are
  unambiguous. `Naming.NamesClashIff` says exactly when two names clash, and identifiers of one length
  never do.
- `Transition`: a node's list has at most one attachment per volume. Names built from labels give
  this (`Attachments.OneRecordPerVolumeAndNode`).
- `Resize`: sizes are not negative, as the CSI specification demands of a capacity range.
- `Detach`: `iscsiadm` reports exit code 2 or 21 only when the object it was to remove is missing.
- `Remount`: a mount appends a line to the table with the options asked for, an unmount removes the
  topmost line at its path.

## Where the code does less than its comments say

- A node's record is said to be marked before another node starts mounting (pkg/driver/node.go:274-283):
  two nodes that list before either creates both end with an unmarked record
  (`Ownership.TwoLiveAttachments`). It holds exactly in the runs of `Ownership.OneLiveIffGuardedCreates`.
- Records of other nodes are to be deleted only when those nodes are down
  (pkg/driver/node_utils.go:343-372): the second list can find records that the check never saw
  (`Ownership.UncheckedDelete`, exactly `Ownership.OnlyDownIffFairRelists`), and then the Stages of two
  nodes succeed (`Ownership.TwoNodesAttached`). What the iSCSI target makes of the two logins is not
  part of this model.
- The finalizer is to keep the record while the volume is attached (pkg/driver/node.go:166-177): a
  cleanup that overlaps with a Stage takes it off (`Overlap.CleanupUndercutsStage`, exactly
  `Overlap.KeptIffCareful`).
- Shrinking is said to be unsupported (pkg/utils/maya.go:243-246): two overlapping calls can lower the
  spec, because the patch carries no version (`Resize.OverlappingCallsShrink`).
  `Resize.GrowthIffPatchesGuarded` is the exact condition.
- A volume that is being resized is to get no new target (pkg/utils/maya.go:253-256). It gets one from a
  call that fetched it pending (`Resize.PendingFetchMovesUnsettledTarget`) or before another call
  raised the spec (`Resize.OverlappingCallMovesUnsettledTarget`), and from no other
  (`Resize.UnsettledTargetMovesIff`).
- A remount that reports success restores the mount (pkg/utils/utils.go:491-501) exactly under
  `Remount.RemountHealsIff`; stacked mounts defeat it (`Remount.StackedMountsDefeatRemount`), and then
  no number of further remounts heals the volume (`Remount.RetriesHealIff`).
- A detach is to fail while the volume is still mounted elsewhere (pkg/iscsi/iscsi_util.go:504-506): the
  count is taken after the unmount, when the path no longer leads to a device name, so a bind mount of
  the device at another path does not stop the logout (`Detach.LogoutWhileMountedIff`).

## Model

| member | source | states |
|---|---|---|
| Transition.StepKeepsInv | pkg/utils/utils.go:251-400 | one guarded and benign step of a handler, the monitor, a remount or a cleanup worker keeps the invariant of the next row |
| Transition.ReachableIsSound | pkg/utils/utils.go:308-323 | in every state of every guarded and benign run: one holder per volume, entries are exactly the held and leaked volumes, each entry's status is one its holder's kind writes, ReqMountList is exactly the set of remounting volumes |
| Transition.AdmittedIff | pkg/driver/utils.go:95-105 | in every such state a request is admitted exactly when nobody holds the volume and its entry has not leaked, and is then the only holder |
| Transition.ExclusionIffGuarded | pkg/utils/utils.go:371-397 | over every benign run of a driver, exclusion holds in all states if and only if the run is guarded: each Cleanup mark hits a volume without a live holder |
| Transition.InvariantIffGuardedAndBenign | pkg/utils/utils.go:371-397 | over every run, with no condition on it, the whole invariant holds in all states if and only if each mark hits a volume without a live holder and no failed update makes a cleanup worker delete the entry of somebody else |
| Transition.RemountOffIsExclusive | pkg/driver/service.go:92-106 | with REMOUNT off, for every startup list with one attachment per volume and every interleaving of requests and cleanup workers, every mark is guarded; so the invariant holds throughout if and only if the run is benign, and then exclusion does too |
| Transition.HolderOwnsEntry | pkg/driver/utils.go:88-105 | in every state of a guarded and benign run, no guarded and benign step of anybody else writes or deletes a live holder's entry |
| Transition.EntryMeansHeld | pkg/driver/utils.go:99-103 | without leaks the entry test of the request path and the monitor is exactly the guard that Cleanup lacks |
| Transition.SecondHolderAdmitted | pkg/utils/utils.go:376-394 | for every volume and every two request kinds a reachable run in which the unguarded mark and its delete let the second request in while the first is live |
| Transition.StrayReleaseAdmitsSecond | pkg/utils/utils.go:386-394 | for every two volumes and two request kinds a run with guarded marks and REMOUNT off in which the delete under the name of a failed update lets a second request in |
| Transition.DetachLeaksIff | pkg/utils/utils.go:383-396 | a cleanup worker's entry outlives it exactly when its update failed and the returned object has another name |
| Transition.LeakIsPermanent | pkg/utils/utils.go:386-394 | a leaked volume stays busy and unheld over every guarded and benign run without a new mark or a failed update that names it |
| Transition.StatusTellsHolder | pkg/utils/utils.go:308-314 | in every state of a guarded and benign run the status of an entry tells the kind of its holder: RemountUnderProgress exactly the volumes of ReqMountList, ResizeInProgress exactly those of a live Expand, a leaked entry UnmountUnderProgress, and so on |
| Transition.WriteIsSeen | pkg/driver/node.go:186-188 | a write changes the entry of its holder to the status written, and nothing else |
| Transition.ReturnFrees | pkg/driver/utils.go:88-93 | a handler or remount worker that returns leaves its volume without entry and holder, and the other volumes as they were |
| Transition.CleanupCovers | pkg/utils/utils.go:371-380 | Cleanup gives every marked volume its entry and a new worker, and leaves entries and holders of all others alone |
| Transition.StageAndUnstageVisit | pkg/driver/node.go:128-312 | from every state in which a volume is free, a handler can make all its status writes in the order of its code, and the visit leaves everything as it was |
| Monitor.HealthyIff | pkg/utils/utils.go:293-303 | the test of the mount list holds exactly when the first line at the staging path is read-write and some line is at the target path |
| Monitor.NeedsRemountIff | pkg/utils/utils.go:273-303 | the scan goes on to the entry test exactly for an unmarked attachment, no block device, with both paths set, whose lines are not like that |
| Monitor.ScanCovers | pkg/utils/utils.go:273-340 | at lock release cleanup is requested if any listed attachment is marked, and every listed one that needs a remount has an entry |
| Monitor.CleanupDueIff | pkg/utils/utils.go:275-279 | a scan requests cleanup exactly when some listed attachment is marked |
| Monitor.RemountStartsIff | pkg/utils/utils.go:302-339 | a volume without an entry gets a remount worker exactly when one of its attachments needs a remount, and that worker is then its only holder |
| NodeDriver.Driver.AddVolume | pkg/driver/utils.go:95-105 | takes the entry in one critical section exactly when there is none, otherwise changes nothing |
| NodeDriver.Driver.RemoveVolume | pkg/driver/utils.go:88-93 | one critical section, the handler's entry goes, the rest stays |
| NodeDriver.Driver.WriteStatus | pkg/driver/node.go:186-188 | one critical section, only the holder's own entry changes |
| NodeDriver.Driver.MonitorTick | pkg/utils/utils.go:260-342 | on every path the lock is taken and released once; the scan loop makes exactly the monitor step of the protocol; a failed list changes nothing; every marked attachment requests cleanup and every one that needs a remount has an entry afterwards |
| NodeDriver.Driver.Cleanup | pkg/utils/utils.go:352-400 | lists at most five times, fails exactly when all answers fail and then changes nothing, otherwise marks and spawns for the first answer, in one critical section |
| NodeDriver.Driver.StartNode | pkg/driver/service.go:92-106 | makes exactly the startup step for the first answer of the API server and only then serves; fails without a change exactly when five answers fail |
| NodeDriver.Driver.MonitorEnd | pkg/utils/utils.go:343-345 | makes exactly the cleanup step of the monitor, with the first answer or with none after five failures |
| NodeDriver.Driver.MonitorIteration | pkg/utils/utils.go:257-346 | an undisturbed iteration is the tick, followed by the cleanup step exactly when the scan saw a marked attachment, and leaves the monitor ready for the next tick |
| NodeDriver.Driver.FinishRemount | pkg/utils/utils.go:316-323 | both entries of the volume go in one critical section |
| NodeDriver.Driver.FinishDetach | pkg/utils/utils.go:393-396 | deletes the entry of the object the worker holds at the end |
| NodeDriver.Driver.ListContains | pkg/utils/utils.go:229-239 | finds the first mount at the path, or there is none |
| NodeDriver.Driver.VerifyMountOpts | pkg/utils/utils.go:459-466 | true exactly when the option is listed |
| NodeDriver.Driver.LooksGood | pkg/utils/utils.go:293-303 | true exactly when the first staging line is read-write and the target path has a line |
| Remount.MountTable.RemountVolume | pkg/utils/utils.go:471-502 | the table after every outcome, with both unmounts before the two new lines; unchanged when the volume is not ready or not reachable; after success healthy by the monitor's test if and only if the input table has no more lines at the staging path than the unmounts take away, or a read-write one first |
| Remount.RemountCounts | pkg/utils/utils.go:484-501 | how many lines each path has after success, for any flags and failing unmounts |
| Remount.RemountReplaces | pkg/utils/utils.go:484-501 | with one line per path, working unmounts and two different paths, success replaces both mounts: the device read-write at the staging path, the bind mount at the target path, every other path as it was, still one line per path |
| Remount.RemountHealsIff | pkg/utils/utils.go:484-501 | with working unmounts and flags of a scan of this table, a successful remount is healthy by the monitor's test if and only if the input table has at most one line at the staging path (two if the target path is the same) or the first one is read-write |
| Remount.RemountHeals | pkg/utils/utils.go:484-501 | in particular always with one line per path |
| Remount.RetriesHealIff | pkg/utils/utils.go:484-501 | any number of successful remounts ends healthy if and only if the table before the first one met that condition |
| Remount.RemountConverges | pkg/utils/utils.go:293-307 | in every reachable state the next scan remounts the volume again exactly when it is listed, monitored and did not meet that condition |
| Remount.StackedMountsDefeatRemount | pkg/utils/utils.go:484-501 | after a successful remount over two stacked read-only staging mounts the volume is unhealthy by the monitor's test |
| Cluster.StepKeepsInv | pkg/driver/node.go:128-394 | every step of every handler keeps: finalizers come with both paths, a base of the stored version is the stored object, each handler's knowledge of its own record, staged records are kept |
| Cluster.RecordOutlivesAttachment | pkg/driver/node.go:166-177 | in every reachable state a finalizer implies staging and device path, and every staged volume's record is stored with the finalizer |
| Cluster.StagedUntilDetached | pkg/driver/node.go:289-310 | from the return of a Stage that attached until the first successful UnmountAndDetachDisk on the record, it stays stored with the finalizer in every run |
| Cluster.FailedAttachClears | pkg/driver/node.go:190-221 | a failed login and a failed format and mount go on to the clearing update, which takes the finalizer off exactly when the record has not changed meanwhile |
| Cluster.FailedStageCanRetry | pkg/driver/node.go:190-221 | and when it has not, a new Stage can then succeed |
| Cluster.FailedStageKeepsFinalizerIff | pkg/driver/node.go:190-221 | a Stage that fails after prepare leaves the finalizer exactly when it ends after setting it and without an accepted clearing update |
| Cluster.FinalizerBlocksCreate | pkg/driver/node_utils.go:412-417 | in every reachable state a Stage that started on a record with the finalizer and has come to its create fails there and leaves the record marked and finalized |
| Cluster.CheckProceedsIff | pkg/driver/node_utils.go:347-372 | the check goes on exactly when the own record, if listed, is unmarked and every other listed record is of another node found not ready or missing; otherwise the Stage ends |
| Cluster.StageCanRecreate | pkg/utils/kubernetes.go:168-204 | without the finalizer and without other nodes' records a new Stage can get past prepare from every state, with a fresh record |
| Cluster.StageCanSucceed | pkg/driver/node.go:128-228 | and on to success, with the requested paths and the finalizer in the record |
| Cluster.AttachCanSucceed | pkg/driver/node.go:155-228 | from a created, unmarked record there is a run to success that leaves the volume staged and the record with finalizer and requested paths |
| Cluster.UnstageCanRemove | pkg/driver/node.go:259-311 | an undisturbed Unstage ends with the record gone and nothing else changed |
| Cluster.CleanupCanRemove | pkg/utils/utils.go:381-391 | an undisturbed cleanup of a marked record ends with the record gone and nothing else changed |
| Cluster.StageUnstageRoundTrip | pkg/driver/node.go:128-312 | Stage then Unstage leaves neither record nor attachment |
| Cluster.UnstageOfUnstaged | pkg/driver/node.go:259-269 | an Unstage without a record or staging path changes nothing |
| Cluster.PublishCanSucceed | pkg/driver/node.go:334-341 | an undisturbed publish of a stored record writes the target path and nothing else |
| Cluster.UpdatesLoseNothing | pkg/driver/node.go:166-305 | in every reachable state each update changes its own fields of the record as stored, or nothing when it is stale |
| Cluster.PublishWritesTarget | pkg/driver/node.go:334-341 | in every reachable state a publish changes the target path of the record as stored, or nothing when it is stale |
| Ownership.OneLiveIffGuardedCreates | pkg/driver/node_utils.go:343-417 | over every run of all nodes, each volume has at most one unmarked record in all states if and only if every create that stores a record finds only marked records of its volume |
| Ownership.OnlyDownIffFairRelists | pkg/driver/node_utils.go:343-417 | over every run of all nodes, records of nodes not found down are never up for deletion if and only if every second list finds only the own record and records of nodes that the check found not ready or missing |
| Ownership.SingleLiveAttachment | pkg/driver/node_utils.go:343-417 | in every run in which no two prepares of one volume overlap every create is guarded and every second list fair in these senses, so each volume has at most one unmarked record in all states, and records of other nodes are deleted only after the check found their node not ready or missing |
| Ownership.StepKeepsOwned | pkg/driver/node_utils.go:343-417 | what a prepare knows after its list, its check, its relist and its deletions survives every step of everybody else |
| Ownership.StageTakesOver | pkg/driver/node_utils.go:343-417 | failover: when all other nodes with a record of the volume are down, a Stage can succeed from every state with an idle node and no finalizer of its own; the old records stay, marked and with their finalizers, and records of other volumes are untouched |
| Ownership.TwoLiveAttachments | pkg/driver/node_utils.go:343-417 | for every volume and every two nodes a run that ends with two unmarked records |
| Ownership.UncheckedDelete | pkg/utils/kubernetes.go:163-174 | for every volume and every two nodes a run in which one puts the record of the other up for deletion without having checked that node, while the volume is attached there |
| Ownership.TwoNodesAttached | pkg/driver/node_utils.go:343-417 | and goes on to attach it too: the Stages of both nodes succeed without an Unstage between, and one live record is left |
| Overlap.KeptIffCareful | pkg/driver/node.go:166-228 | over every run of handlers that may overlap in any way, each staged volume keeps its record with the finalizer in all states if and only if every Stage returns success while its record carries the finalizer and no accepted update takes it off the record of a staged volume |
| Overlap.ExclusiveRunsAreCareful | pkg/driver/utils.go:95-105 | in every run in which handlers of one record exclude each other both are so |
| Overlap.CleanupUndercutsStage | pkg/utils/utils.go:371-391 | from every state in which a Stage has attached and is about to return, a run in which an overlapping cleanup takes the finalizer off and the Stage returns success without a record |
| Attachments.ApiServer.PrepareVolumeForNode | pkg/driver/node_utils.go:321-419 | undisturbed: names agree with labels and one live record per volume before and after; other nodes' records are marked only if their node is not ready or missing; success means that they all are and the own fresh record is the only live one; an own record with the finalizer makes it fail; succeeds when the other nodes are not ready or missing and nothing else stands in the way |
| Attachments.ApiServer.CheckExisting | pkg/driver/node_utils.go:347-372 | passes exactly when the own record is unmarked and every other listed record is of another node that is not ready or missing |
| Attachments.ApiServer.DeleteAll | pkg/utils/kubernetes.go:168-180 | succeeds exactly when no deletion fails; only listed records get a mark, finalizers keep theirs |
| Attachments.ApiServer.Poll | pkg/utils/kubernetes.go:182-202 | at most five polls; stops early only when a get answers that the record is gone, any other error is polled again; and does so at the latest at the poll before which the record was collected, if no later get fails |
| Attachments.ApiServer.DeleteOld | pkg/utils/kubernetes.go:159-205 | success promises a mark on every remaining record of the volume, not that the own one is gone |
| Attachments.ApiServer.LastWithSuffix | pkg/utils/kubernetes.go:176-179 | the record waited for is the last listed one whose name ends in the node's name, and none if there is no such name |
| Attachments.HasSuffixIff | pkg/utils/kubernetes.go:177-177 | a name ends in the node's name exactly when it is something followed by it |
| Attachments.CreateOwns | pkg/utils/kubernetes.go:126-146 | a create on a free name when all records of the volume are marked keeps names in agreement with labels and one live record per volume, and makes the own record the only live one |
| Attachments.OneRecordPerVolumeAndNode | pkg/utils/kubernetes.go:86-94 | a node's list has each volume once |
| Naming.NamesClashIff | pkg/driver/node_utils.go:388-391 | two records of volumes with identifiers of different length share a name exactly when one identifier extends the other over a dash and the node names make up for it |
| Naming.EqualLengthNamesUnique | pkg/driver/node_utils.go:388-391 | identifiers of one length never clash |
| Rounding.RoundUpIsCeiling | pkg/utils/rounding.go:70-76 | truncated division with the remainder test is the ceiling for every size, negative ones included, and stays in int64 |
| Rounding.RoundUpGiBAtMost | pkg/utils/rounding.go:51-53 | RoundUpGiB(x) is at most g if and only if x is at most g GiB |
| Rounding.RoundUpBytesFits | pkg/utils/rounding.go:45-47 | no wrap-around if and only if the size is at most 2^63 - 2^30 |
| Rounding.ByteCount | pkg/utils/rounding.go:30-41 | terminates without overflow of the divisor or an index past the letters; prints the quotient below 1024 in the unit that fits |
| Rounding.UnitIndexUnique | pkg/utils/rounding.go:34-40 | that unit is determined by the byte count |
| Rounding.DigitsReadBack | pkg/utils/rounding.go:31-41 | the number is printed in decimal: it reads back, without a leading zero |
| Resize.ShrinkRejectedIff | pkg/utils/maya.go:233-246 | a request is rejected as shrinking exactly when it fits into one GiB less than the spec |
| Resize.DecisionBySize | pkg/utils/maya.go:241-262 | on every sound object, which of the five branches a size in bytes takes |
| Resize.RetryNeverPatches | pkg/utils/maya.go:241-262 | retrying the size the spec has never patches and succeeds exactly when the status has reached the spec |
| Resize.SpecNeverShrinks | pkg/utils/maya.go:228-303 | over every run from the provisioned volume, with operator steps, in which no fetch falls between the fetch and the patch of another call: patches are guarded, the spec never goes down, is whole GiB and at least the provisioned capacity |
| Resize.ProvisionedInv | pkg/utils/maya.go:114-129 | a provisioned volume satisfies the invariant, is pending and has the least whole number of GiB that holds the size |
| Resize.UnsettledTargetMovesIff | pkg/utils/maya.go:248-303 | at the end of every run of any overlapping calls a patch moves the target of a volume whose status is below its spec if and only if its call fetched the volume pending or with a lower spec than the stored one, and its target is neither the fetched nor the stored spec |
| Resize.SerializedUnsettledMovesIff | pkg/utils/maya.go:248-261 | in every state that runs reach in which no fetch falls between the fetch and the patch of another call, exactly when the call fetched the volume pending and asks for another size |
| Resize.OverlappingCallMovesUnsettledTarget | pkg/utils/maya.go:248-303 | for every size a run of two overlapping calls, both fetched settled, in which the second moves the target before the status caught up with the first |
| Resize.GrowthIffPatchesGuarded | pkg/utils/maya.go:293-303 | over every run of any overlapping calls, the spec goes down in no step if and only if every non-empty patch is sent while the stored spec is at most its target, and then the stored object stays sound |
| Resize.PatchShrinksIff | pkg/utils/maya.go:241-303 | at the end of every run a patch lowers the spec exactly when its target is above the spec its call fetched and below the stored one |
| Resize.OverlappingCallsShrink | pkg/cstor/volumeconfig/utils.go:32-46 | for every size a run from the provisioned volume in which two overlapping calls lower the spec |
| Resize.PendingFetchMovesUnsettledTarget | pkg/utils/maya.go:248-250 | a serialized run in which the target of a bound volume moves before its status caught up |
| Resize.SuccessReached | pkg/utils/maya.go:265-291 | in every interleaving success on a published volume means the last status read equals the rounded request |
| Resize.UndisturbedCall | pkg/utils/maya.go:228-291 | in the step system, from every sound object a call without faults can run to the end that its size and the object determine: refused, nothing to do, or the spec at the rounded size and success exactly when it is not published or its status got there |
| Resize.ConfigStore.ResizeVolume | pkg/utils/maya.go:228-263 | one undisturbed call, in bytes of the request: refused without a change when it is too small or a resize is under way; a larger size moves the spec of a settled or pending volume to the rounded size, and the call succeeds exactly when the volume is not published or the second read shows that size; retries of the current size never patch; a failed request changes nothing; the spec never shrinks |
| Resize.ConfigStore.HandleResize | pkg/utils/maya.go:265-303 | patch, wait and second read: the stored object stays sound, the patched spec is the target, success on a published volume means the second read showed the target |
| Resize.ProgressIsOperatorStep | pkg/utils/maya.go:277-291 | the operator behaviours during the wait are exactly the steps that raise the status up to the spec |
| Detach.RemoveDuplicate | pkg/iscsi/iscsi_util.go:617-627 | in place, the slice keeps exactly the non-empty first occurrences in original order |
| Detach.PositionsIncrease | pkg/iscsi/iscsi_util.go:617-627 | kept elements come from increasing positions, each a first occurrence |
| Detach.EveryFirstIsKept | pkg/iscsi/iscsi_util.go:617-627 | no first occurrence is lost |
| Detach.DistinctContent | pkg/iscsi/iscsi_util.go:617-627 | the result has exactly the non-empty elements |
| Detach.IgnoreExitCodes | pkg/iscsi/iscsi_util.go:588-600 | swallows exactly the listed exit codes |
| Detach.FatalIff | pkg/iscsi/iscsi_util.go:549-586 | a command fails the detach exactly with an error other than the exit codes 2 and 21 |
| Detach.MountedIsReferenced | pkg/iscsi/iscsi_util.go:494-506 | a zero reference count proves that nothing is mounted at the path |
| Detach.UnreferencedIff | pkg/iscsi/iscsi_util.go:494-506 | and exactly that, besides that no line has an empty device name |
| Detach.LogoutWhileMountedIff | pkg/iscsi/iscsi_util.go:478-506 | DetachDisk of an existing path comes to a logout with a line of a device left in the table if and only if no check before it fails, the path had no line more than the unmount took away, no other line has an empty device name, and some line at another path has the device |
| Detach.Host.DetachPortals | pkg/iscsi/iscsi_util.go:549-586 | succeeds exactly without a fatal command; whatever the outcome, exactly the portals before the first fatal one have lost session and record, that one its session if only the deletion failed, later ones nothing; no record goes while its session stays; the interface "portal:volume" goes only after all of them, any other never |
| Detach.Host.DetachDisk | pkg/iscsi/iscsi_util.go:471-547 | exactly when it succeeds and exactly when it comes to a logout; success means the path was absent and nothing changed, or no mount, session, record or path remains; a failure before the logout changes nothing but the unmount, one after it leaves what the first fatal portal determines; each logout sees the unmounted table, without a line at the path |
| Readiness.BecomesReadyIff | pkg/utils/utils.go:190-198 | ready means: one of the first seven reads answers Healthy or Degraded, and the ones before it some other phase without an error |
| Readiness.WaitForVolumeToBeReady | pkg/utils/utils.go:186-214 | succeeds exactly when the volume becomes ready in that sense; at most 7 reads with 2 seconds between; the holder's entry changes to the waiting status only if there was a wait |
| Readiness.WaitForVolumeToBeReachable | pkg/utils/utils.go:153-182 | succeeds exactly when one of 6 dials does |
| Readiness.WaitForVolumeReadyAndReachable | pkg/utils/utils.go:443-457 | both, within 7 reads, 6 dials and 24 seconds of sleep |
| Topology.Filtered | pkg/driver/controller.go:388-394 | filters exactly the nodes that miss a segment, in any map order |
| Topology.GetNode | pkg/driver/controller.go:379-401 | the first match in order of preferred term, then node; the empty name otherwise |
| Topology.FirstMatchIsLeast | pkg/driver/controller.go:386-399 | a first match comes before every other match, by term and then by node |
| Topology.FirstMatchUnique | pkg/driver/controller.go:386-399 | there is only one first match |
| Topology.GetAccessibilityRequirements | pkg/driver/controller.go:349-363 | an error exactly for a missing requirement or no match, when nodes are named and listed |
| Snapshot.DeleteActsIff | pkg/driver/controller.go:294-303 | DeleteSnapshot acts on (volume, name) for exactly the identifier built from two names without a separator |
| Snapshot.DeleteIsExactOrRefuses | pkg/driver/controller.go:280-303 | for every created identifier it acts on the original names or refuses, refusing exactly when one contains the separator |
| Snapshot.ParsersAgreeIff | pkg/utils/maya.go:197-205 | both parsers agree exactly on identifiers with one separator |
| Snapshot.SourceDetailsTruncates | pkg/utils/maya.go:197-205 | a snapshot name with a separator is cut off when cloning |
| Snapshot.JoinSplit | pkg/driver/controller.go:294-294 | splitting loses nothing |
| Snapshot.SplitCuts | pkg/driver/controller.go:294-294 | and has one part more than separators |
| Snapshot.PartsArePlain | pkg/driver/controller.go:294-294 | and leaves no separator in a part |

## Left out

- Kubernetes client wrappers, builders and list filters: thin or field setters. The API server is a map.
- `ISCSIUtil.AttachDisk`, CHAP, interface cloning, JSON persistence, formatting: commands and files only.
- gRPC server, logging, analytics, configuration, statistics, clocks: no logic to prove.
- `VerifyIfMountRequired`, `IsUnmountRequired`, `GetMounts` and the mount option merge: single searches over a list. In `Cluster` their answers are the choice between skipping and attaching.
- `CreateVolume`, `DeleteVolume`, `ControllerGetVolume` beyond the capacity of the created object: they depend on what an unseen client returns with an error.
- `NodeExpandVolume` beyond its entry in the transition list: it runs commands.
- Symbolic links in mount paths, which the reference count resolves.
- Cluster.Next: a deletion always marks first and the collector removes later; an update that takes the last finalizer off a marked object removes it at once in Kubernetes, here at the next collection.
- Detach.Host.DetachDisk: does not model what a failing RemoveAll leaves under the path, nor the children it removes.
