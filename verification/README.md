# stornas, modelled and proved in Dafny

stornas is a Kubernetes storage appliance: an operator places iSCSI targets and file shares on nodes, per-node agents
make the host match, and a server streams the cluster state to a web UI. The parts talk only through versioned API
objects and in-memory signals, so what has to hold is spread over several programs. This project models those parts and
proves what holds over all their runs, with the host tools (LVM, mdadm, targetcli, ip) replaced by abstract host states.

| file | models |
|---|---|
| `EventBus.dfy` | the per-kind versions and coalesced wakes, and the store wrapper that signals after each mutation |
| `Publishing.dfy` | the link from that code to the steps of the frame machine |
| `LiveFrames.dfy` | publishers, connections and the frame hub as one interleaved state machine |
| `ExportProtocol.dfy`, `ExportReports.dfy` | Target and Share: operator, agents, node readiness, stale readers and refused writes; what an agent's report rests on |
| `OperatorPass.dfy` | the live branch of one Target or Share operator pass, which computes the machine's verdict |
| `Placement.dfy` | the choice of a serving replica, and the event filter that decides when to choose again |
| `PoolTeardown.dfy`, `PoolDeletion.dfy`, `PoolLifecycle.dfy` | wiping a pool's disks, the three-party handshake that allows it, and a pool's undisturbed life |
| `LinearReplace.dfy`, `RaidReplace.dfy`, `RaidSwap.dfy` | swapping a disk in a linear pool and in an md array |
| `DeviceReport.dfy` | pairing dead slots with spec devices, and the UI's join on the path |
| `TargetWalk.dfy`, `AppliedKey.dfy` | the targetcli walk, and the agent's memo that skips it |
| `VipRecord.dfy` | the virtual IP and the record that names it, with crashes between any two host steps |
| `SnapshotFrame.dfy` | alert aggregation and sorting, so that equal state gives equal frames |
| `Text.dfy`, `Wrappers.dfy` | decimal numerals, where joined text can be split again, optional values |

A protocol is a state machine: a `Step` datatype, `Enabled`, `Next`, runs as sequences of states, an invariant kept by
every step, and theorems about every state of every run. Code that changes things step by step is a class or a method
with loops, proved equal to a function of the old state; the theorems are about that function. `dafny verify
dfyconfig.toml` checks all files together.

## Where the code does not keep a promise on every input

Each of these is kept as the code has it, shown with a family of inputs, and delimited.

- A StoragePool deleted before the operator added its finalizer disappears at once; the agent may already have built its
  volume group, and no wipe ever runs (`EarlyDeleteLeavesTheVG`, `DeletedTooEarlyIsNeverWiped`).
- The teardown visits the devices the spec names at that time. A pool deleted while a disk is being swapped leaves the
  outgoing member with the pool's signature for good (`MidSwapMemberKeepsMark`, `SwappedOutStaysMarked`), and so does a
  disk that was pulled; `MarksLeft` says exactly which signatures a teardown leaves.
- An r-drbd Pool made by hand at the pool's place can be wiped under its owner, at some points of a run and not at others;
  `HazardExactly` says at which, on a guard over the stored object, the operator's pass and the agent's pass. Without such
  a Pool made under that guard no wipe ever meets one (`WipeOnlyWithoutPool`). What an admin can go by: an object without
  a deletion mark, or with its teardown confirmed, is never at risk (`UnmarkedOrTornDownIsSafe`).
- The Volume event filter forgets list order, so with two equally fresh replicas in use an update it drops may move the
  export; that is the only case (`FilterIsExact`). A Target's further LUNs are resolved with its active node as preference,
  and there any two equally good replicas will do: the node does not move, but the stored device of that LUN may change
  (`FilterIsExactUnder`, `DroppedUpdatesChangeNothing`, `ChoicesAreExact`).
- A node that loses a target takes a missing export for a finished removal. If the agent stopped after the export was
  deleted and before all backstores were, no later teardown frees the rest, and with it the DRBD devices, although a
  removal by name alone would (`TeardownLeavesExactly`, `TeardownRerunExactly`, `RemovalRerunConverges`).
- After a walk that stopped or whose report was lost, the agent may skip on its old key and leave the newer walk's LUNs or
  ACLs in place; `StoppedWalkExactly` and `LostReportExactly` say when. A stale LUN whose removal failed is let pass and the
  key recorded all the same, so it lingers until the input changes (`LingeringExactly`).
- A LUN device whose name contains a bar, a number and a colon can be read as two LUNs; exactly those names are unsafe
  (`CleanExactly`).
- Removing a target also removes the backstores of another one whose name extends the first with `-lun`
  (`RemovalReaches`).
- Switching a VIP forgets the first address (`ClaimExactly`, `SwitchForgets`). A record that cannot be written, an address
  that cannot be deleted and a record that cannot be removed are only logged; `ToleratedExactly` says which of these
  failures do harm, `FailedWriteExactly` and `FailedDelExactly` spell out the two that matter.
- Alert messages of equal timestamp depend on list order (`OrderFreeExactly`), and the sort text of alerts, joined without
  separators, can tie for different rows unless names keep to the usual shape (`TextCanTie`, `ShapedRowsDoNotTie`).

The comment at `operator/internal/controller/target_controller.go:188-193` says that after a partition only the spec knew
the VIP; the code has since gained the record file, and the model follows the code.

## Assumptions

- Counters do not wrap, and encoding a frame always succeeds with a non-empty text.
- One incarnation per object name; one reconcile in flight per controller and object; API status writes are optimistic.
- An agent's reads of one object never go backwards; the operator may read any older version. In the pool deletion chain
  API reads are fresh: `operator/internal/rdrbd/registrar.go:101` trusts a NotFound.
- A host command succeeds or stops the pass, except where the model says otherwise (failing detached md members, pruning
  LUNs, removing targets and backstores, the VIP's record and addresses). In `ExportProtocol` a teardown always clears the
  export, although `internal/agent/lio.go:60-65` only logs a failing removal and the agent then stores Removed all the same.
- r-drbd never creates Pools, and holds a Pool while it lists volumes on it. Nobody else makes a pool's volume group or
  array, or puts its signature, or for a linear pool a label without an owner, on a disk of the device list that is being
  wiped or was confirmed wiped; a pulled disk of that list does not come back with it either. Other disks are free. A disk
  does not carry an md superblock and a PV label at once.
- The default route stays on its interface, which the agent's key does not hold. No other target's removal reaches a
  target's backstores between its walks; `RemovalReaches` says which names do.
- pvmove takes extents from its source only and loses none; `mdadm --replace` fails the old member only after the
  new one is in sync.
- The host does not restore a saved LIO configuration behind the agent's back.

## Model

| member | source | states |
|---|---|---|
| EventBus.Bus.Publish | internal/eventbus/bus.go:70-91 | every interested subscriber, and nobody else, has exactly one wake pending, and one woken by the call finds the new version when it looks |
| EventBus.Bus.Version | internal/eventbus/bus.go:98-107 | the watermark is the sum of the named kinds' versions |
| EventBus.Bus.Subscribe | internal/eventbus/bus.go:115-126 | a new subscriber starts with no wake pending and disturbs no other |
| EventBus.EqualSumsEqualLoads | internal/eventbus/bus.go:93-107 | two readings taken kind by kind, one after the other, have equal sums exactly when no kind moved between its two loads |
| EventBus.PublishRaisesWatermark | internal/eventbus/bus.go:93-97 | publishing a named kind strictly raises the watermark, publishing another kind leaves it |
| EventBus.WatermarkCountsPublishes | internal/eventbus/bus.go:98-107 | from zero, each publish of a named kind adds exactly one |
| CountingStore.Store.Apply | internal/reflect/store.go:68-104 | an accepted change is announced once, and whoever looks at that moment finds it stored; a refused one is neither stored nor announced; readiness fires exactly once over the store's life |
| CountingStore.ChangedMeans | internal/reflect/store.go:68-104 | a put object is found under its name, a deleted one is not, all others are as before, and a relist is the list |
| Publishing.PublishStepsAre | internal/reflect/store.go:68-74 | mutate, bump and wake are steps of the frame machine that are enabled in that order only, and together change one store, one version and the hub's wake |
| Publishing.Change | internal/reflect/store.go:68-104 | an accepted change takes the machine through exactly those steps, with the contents and versions its readers find at the signal and at the wake; a refused one through none |
| LiveFrames.RunKeepsInv | internal/stream/hub.go:78-145 | every state of every interleaving of publishers, add and remove calls, writers and the hub satisfies the protocol invariant |
| LiveFrames.ParkingIsSafe | internal/stream/hub.go:95-104 | when the two version sums around a build agree, parking loses no change: whatever the build missed still has its wake ahead |
| LiveFrames.QuietMeansCurrent | internal/stream/hub.go:78-128 | no lost wakeup: with nothing in flight, each connection's last frame encodes the current state, and what its writer took plus its mailbox ends in that frame |
| LiveFrames.SendNeverBlocks | internal/stream/hub.go:118-126 | whatever writers do meanwhile, the conflating send always finds its slot free |
| LiveFrames.HubStepWorks | internal/stream/hub.go:86-105 | each step of the hub lowers a measure, also when a pass was overtaken and has to be repeated |
| LiveFrames.HubIsNeverStuck | internal/stream/hub.go:78-107 | unless parked with no signal pending, the hub has a step to take |
| LiveFrames.HubSettles | internal/stream/hub.go:86-105 | once publishers and callers are silent the hub takes a bounded number of steps on every schedule |
| LiveFrames.SilenceEndsCurrent | internal/stream/hub.go:75-107 | from every reachable state with no call in flight, every silent schedule is bounded, and once the hub has no step left each connection was sent the current state as its latest frame |
| LiveFrames.HubConns.Deliver | internal/stream/hub.go:109-128 | in any map order, every connection holds exactly the new frame, or is untouched if it already had it |
| LiveFrames.HubConns.Add | internal/stream/hub.go:130-138 | the kick finds the new connection registered, without a frame and with an empty mailbox |
| LiveFrames.AddStepsAgree | internal/stream/hub.go:130-138 | the machine's attach and kick amount to that |
| LiveFrames.DetachLeaves | internal/stream/hub.go:140-145 | a connection that leaves is gone and nothing else is touched |
| LiveFrames.TakeMovesFrame | internal/stream/hub.go:60-67 | a writer takes exactly the frame in its mailbox: none is lost or taken twice |
| LiveFrames.DeliverStepsAgree | internal/stream/hub.go:113-127 | the machine's pick, drain and send of one connection amount to what the method does to it |
| ExportProtocol.StepKeepsInv | operator/internal/controller/target_controller.go:64-217 | every step of users, operator, agents and nodes, stale or refused, keeps the history and agent invariants |
| ExportProtocol.RunKeepsInv | operator/internal/controller/share_controller.go:59-168 | so does every run, for Targets and for Shares |
| ExportReports.HostStepMeans | internal/agent/target_reconciler.go:36-104 | what a host step leaves, by the version it is for and what the host did: not exporting if gone, deleting or placed elsewhere, exporting after a walk that went through |
| ExportReports.AgentStoresItsReport | internal/agent/target_reconciler.go:104-125 | over runs: every version an agent stored follows its host step of the same pass, Exported and ready after a walk that went through with the export in place, Failed and not ready after one that broke, Removed after a teardown, nothing else |
| ExportReports.HostReadyIsTheNodesOwnReport | operator/internal/controller/target_controller.go:148-161 | a stored HostReady=True was stored by the agent of the node that version names, on a version already naming it, with no change of placement since, after a walk of that pass went through and while the node exported |
| ExportReports.AvailableRestsOnReport | operator/internal/controller/target_controller.go:162-178 | every Available=True the operator stores rests on such a walk |
| ExportReports.LifecycleRun | operator/internal/controller/target_controller.go:64-217 | an undisturbed life is a run: placed, exported, Available, marked, torn down, confirmed and let go, with every stored version given |
| ExportProtocol.HostStepFacts | internal/agent/target_reconciler.go:45-68 | after a pass acted on the host, the node exports only if the version it applied names it and is not being deleted |
| ExportProtocol.ExportFollowsNewestApplied | internal/agent/share_reconciler.go:24-63 | in every run a node exports only what the newest version it applied asks of it |
| ExportProtocol.AtMostOneExporter | internal/agent/target_reconciler.go:36-65 | among nodes that applied the newest version at most one exports; after NotFound none does |
| ExportProtocol.PlacementIsFrozen | operator/internal/controller/target_controller.go:69-71 | once deletion is marked, every later version keeps the mark and the node |
| ExportProtocol.NeverPlacedNeverExported | operator/internal/controller/target_controller.go:198-198 | an object released unplaced was exported by no node, before or after |
| ExportProtocol.ConfirmedStaysDown | internal/agent/target_reconciler.go:45-58 | an object released as Removed was torn down on its node after the mark, and that node never exports it again |
| ExportProtocol.CheckedInThisPass | operator/internal/controller/target_controller.go:199-205 | a pass that holds its node for gone or unready checked that node itself, after the mark, with no new read since |
| ExportProtocol.ReleaseIsSafe | operator/internal/controller/target_controller.go:194-217 | a released finalizer means one of three: never placed and never exported, torn down after the mark for good, or the releasing pass itself found the node gone or unready after the mark |
| OperatorPass.ResolveLUNs | operator/internal/controller/target_controller.go:115-137 | all LUNs resolve or none counts; the node is the first LUN's, devices keep LUN order, replication is seen on any LUN |
| OperatorPass.TargetPass | operator/internal/controller/target_controller.go:81-178 | a pass that can place stores the first LUN's chosen node and each LUN's chosen device, keeps HostReady exactly if the node did not change from another one, and Available needs both that and usable Secrets; an unusable claim, a LUN without a replica or a replicated LUN without a VIP changes nothing but Available |
| OperatorPass.TargetStatusMeans | operator/internal/controller/target_controller.go:107-178 | the same of the status in the protocol machine |
| OperatorPass.SharePass | operator/internal/controller/share_controller.go:86-131 | the same for a Share and its one claim |
| OperatorPass.VerdictNamesANode | operator/internal/controller/target_controller.go:120-150 | a placement names a real node outside the avoided ones and a device for every LUN |
| OperatorPass.RepeatedPassDoesNotMove | operator/internal/controller/target_controller.go:123-174 | a pass repeated on the same inputs keeps its node, so it never resets the report it waits for |
| OperatorPass.DroppedUpdatesChangeNothing | operator/internal/controller/target_controller.go:120-150 | after Volume updates the filter drops, a Target pass places or not as before, on the same node if the first LUN's choice is untied, with the same devices if every LUN's is |
| OperatorPass.ChoicesAreExact | operator/internal/controller/target_controller.go:122-137 | and only then: a tied LUN's choice changes in some listing of the same keys |
| Placement.Pick | operator/internal/rdrbd/resolver.go:71-79 | the first of the best candidates outside the avoided nodes, or none exactly when all are avoided |
| Placement.Collect | operator/internal/rdrbd/resolver.go:43-49 | the candidates are the usable replicas in report order |
| Placement.CountDiskful | operator/internal/rdrbd/resolver.go:50-56 | the replica count is the number of diskful assignments |
| Placement.ResolvePlacement | operator/internal/rdrbd/resolver.go:37-84 | the loops compute the specified choice and count, error path included |
| Placement.ResolveIsOptimal | operator/internal/rdrbd/resolver.go:57-83 | among the candidates the choice is UpToDate whenever one is, then in use, then preferred; no choice exactly when there is none |
| Placement.ChoiceOnReplicas | operator/internal/rdrbd/resolver.go:25-84 | on the Volume's own fields: the choice is a present replica with a device, diskful by assignment, on a node not avoided, UpToDate whenever one is, among equally fresh ones in use or primary whenever one is, then preferred; no choice exactly when there is no such replica |
| Placement.StrictBestIsPicked | operator/internal/rdrbd/resolver.go:57-79 | a strictly best candidate is chosen in whatever order replicas are listed |
| Placement.ResolveIsStable | operator/internal/rdrbd/resolver.go:62-67 | fed back as preference, a choice is returned |
| Placement.SettledStaysPut | operator/internal/rdrbd/resolver.go:57-79 | a node that is UpToDate and allowed, with no other replica in use, is chosen again |
| Placement.PlacementDoesNotFlap | operator/internal/rdrbd/resolver.go:43-83 | placement never moves along any sequence of Volume states where that stays so |
| Placement.FollowStep | operator/internal/controller/target_controller.go:123-149 | placement follows each choice made with the node before it as preference, and stays where none can be made |
| Placement.ServingOf | operator/internal/controller/claim.go:75-88 | the key holds primary, roles by node and the compared fields of each replica by node |
| Placement.SameKeySameCandidates | operator/internal/controller/claim.go:68-88 | equal keys mean the same usable replicas, whatever the list order |
| Placement.SameKeySameCount | operator/internal/controller/claim.go:75-81 | equal keys mean the same diskful count |
| Placement.FilterIsSound | operator/internal/controller/claim.go:90-99 | an update the filter drops changes neither node, device nor count, unless two equally fresh replicas are in use |
| Placement.ContestedMoves | operator/internal/controller/claim.go:90-99 | in that case a mere reordering moves the export |
| Placement.FilterIsExact | operator/internal/controller/claim.go:75-99 | with the old choice as preference, dropping is right for every listing exactly when the choice is not contested |
| Placement.FilterIsExactUnder | operator/internal/controller/claim.go:75-99 | with any preference, exactly when no other usable replica is as good as the choice |
| PoolTeardown.NodeHost.TeardownPool | internal/agent/pool.go:54-87 | stopping at any command leaves exactly the state after the commands before it, and it succeeds exactly when none fails |
| PoolTeardown.NodeHost.WipeDevice | internal/agent/pool.go:62-85 | a device is erased only if present and observed to be this pool's |
| PoolTeardown.RunPrefix | internal/agent/pool.go:54-87 | the state after any number of wipes, disk by disk |
| PoolTeardown.RerunConverges | internal/agent/pool.go:47-54 | from the state left by stopping anywhere, a rerun ends where an uninterrupted run would have |
| PoolTeardown.AttemptsConverge | internal/agent/pool.go:47-54 | the same after any number of interrupted attempts |
| PoolTeardown.ForeignDisksUntouched | internal/agent/pool.go:50-53 | however far it got, a disk of another array or volume group is exactly as it was |
| PoolTeardown.TeardownCleans | internal/agent/pool.go:54-87 | a full run leaves no volume group, no array and no signature of the pool on a present device that the spec names |
| PoolTeardown.MarksLeft | internal/agent/pool.go:50-87 | for every disk of the host: the pool's signature survives a full run exactly on a disk the spec does not name, or one that was not there |
| PoolTeardown.DisksAfter | internal/agent/pool.go:54-87 | every disk after a full run, field by field, in terms of names, links and what was on it |
| PoolTeardown.HostAfter | internal/agent/pool.go:54-61 | exactly the pool's volume group and array go |
| PoolTeardown.TeardownOrder | internal/agent/pool.go:47-54 | the volume group goes first, then the array, then the members in spec order |
| PoolTeardown.MidSwapMemberKeepsMark | internal/agent/pool.go:62-73 | a member swapped out of the spec keeps its signature although the teardown counts as clean |
| PoolDeletion.StepKeepsInv | operator/internal/controller/storagepool_controller.go:64-127 | every step of operator, agent, r-drbd, admin and other tenants, device swaps included, keeps the handshake's invariant |
| PoolDeletion.RunKeepsInv | operator/internal/rdrbd/registrar.go:62-120 | so does every run |
| PoolDeletion.WipeOnlyWithoutPool | internal/agent/pool.go:349-363 | over every run in which no Pool is made by hand at this place under the guard, the agent never runs a wipe command while r-drbd has a Pool of that node and volume group |
| PoolDeletion.HazardExactly | operator/internal/controller/storagepool_controller.go:68-104 | at every point of every such run without a Pool: the guard holds exactly if a Pool made by hand now can be wiped under its owner, with no other one made after it |
| PoolDeletion.UnmarkedOrTornDownIsSafe | operator/internal/controller/storagepool_controller.go:64-66 | an object without the deletion mark, or confirmed torn down, is never at risk |
| PoolDeletion.ClearanceIsReached | operator/internal/controller/storagepool_controller.go:64-104 | guarded points are reached without any Pool made by hand |
| PoolDeletion.CommandCleans | internal/agent/pool.go:361-363 | each teardown command adds its part to what is clean and undoes none |
| PoolDeletion.DisappearedMeansWiped | operator/internal/controller/storagepool_controller.go:105-121 | if the object disappears while its node stayed up, its volume group and array are gone and every present device of the spec that was confirmed torn down is wiped, then and ever after; its Pool is gone too unless somebody makes one after the releasing pass looked |
| PoolDeletion.SwappedOutStaysMarked | operator/api/v1alpha1/storagepool_types.go:33-40 | a member swapped out of the spec before the wipe keeps the pool's signature through teardown, release and everything after |
| PoolLifecycle.RegisteredRun | operator/internal/rdrbd/registrar.go:62-72 | the operator registers a Pool of exactly this node and volume group |
| PoolLifecycle.LifecycleRun | operator/internal/controller/storagepool_controller.go:60-127 | an undisturbed life is a run, with every state given: built, registered, deleted, deregistered, wiped, confirmed and let go, the host as a whole teardown leaves it |
| PoolDeletion.DeletedTooEarlyIsNeverWiped | operator/internal/controller/storagepool_controller.go:123-127 | deleted before it got its finalizer, the object is gone and no wipe command ever runs |
| PoolDeletion.EarlyDeleteLeavesTheVG | internal/agent/pool.go:376-417 | such a run with a volume group left behind |
| LinearReplace.PlanDevices | internal/agent/replace.go:31-67 | the loops compute the specified plan |
| LinearReplace.EmptyPlanMeansConverged | internal/agent/replace.go:25-27 | the plan is empty exactly when live membership is the resolved spec and no member is missing |
| LinearReplace.SpecDiskStays | internal/agent/replace.go:33-65 | a spec device, at the path it resolves to or at its own, is never moved out, and is added exactly if no live member is there |
| LinearReplace.OutgoingDisks | internal/agent/replace.go:42-56 | a live member at no spec device's path is evacuated if it holds extents and dropped if not, and nothing else is |
| LinearReplace.EmptyPlanOnDisks | internal/agent/replace.go:25-67 | the empty-plan condition on the resolution itself |
| LinearReplace.VolumeGroup.ConvergeDevices | internal/agent/replace.go:74-106 | wherever it stops, total extents are kept and no member holding any is lost; done, the spec devices joined, the moves run with the right destination and the drops are gone; it is done if the host refuses nothing |
| LinearReplace.VolumeGroup.DropMembers | internal/agent/replace.go:97-104 | dropping loses no extent and no member holding one |
| LinearReplace.VolumeGroup.EvacuateAll | internal/agent/replace.go:92-96 | one move per listed member; a running one keeps its destination |
| LinearReplace.StartedMeans | internal/agent/replace.go:92-96 | every listed member is on the move, a new move to the destination, a running one where it was going |
| LinearReplace.DestinationMeans | internal/agent/replace.go:86-91 | the destination is the one new disk at its own path, or left to the allocator |
| LinearReplace.SwapIsExecutable | internal/agent/replace.go:69-106 | while one disk is swapped, the host refuses none of the plan's commands |
| LinearReplace.KeepOnHost | internal/agent/pool.go:117-126 | planned devices absent from the host are not added, the others keep their order |
| LinearReplace.PoolPass | internal/agent/pool.go:111-138 | whatever happens no extent and no member holding one is lost; with live replacements a pass succeeds and is the pass of the histories below, moves included |
| LinearReplace.RunningPassIsIdle | internal/agent/pool.go:421-424 | a pass while the move still runs changes neither members nor moves |
| LinearReplace.PassProgress | internal/agent/replace.go:69-106 | a pass conserves extents and leaves strictly less to do, or changes nothing because a move runs or all is done |
| LinearReplace.MoveProgress | internal/agent/replace.go:86-96 | every step of a move conserves extents and leaves strictly less to do, its completion included |
| LinearReplace.HistoriesConverge | internal/agent/replace.go:69-106 | over every history that mixes passes with move progress, whatever the allocator decides: no extent is lost, a bounded number of steps change anything, and where none can, the live members are exactly the spec's devices |
| LinearReplace.SwapStarts | internal/agent/replace.go:74-96 | one swap's first pass, by path: the newcomer joins and the move to it starts |
| LinearReplace.SwapFinishes | internal/agent/replace.go:97-104 | and its last one: the emptied disk is dropped |
| RaidReplace.MdArray.FindOutsider | internal/agent/pool.go:256-262 | finds a live in-sync member outside the spec whenever there is one |
| RaidReplace.MdArray.Pass | internal/agent/pool.go:218-277 | the state is that of the commands sent, each well chosen: a replace whenever a healthy outsider exists, its victim never in the spec, no healthy disk failed; refused nothing, it leaves no failed member and every present spec device in, whether or not failing the detached members worked |
| RaidReplace.CommandKeepsRedundancy | internal/mdraid/mdraid.go:115-146 | no command a pass issues lowers the number of live in-sync members, refused or not |
| RaidReplace.PassKeepsRedundancy | internal/agent/pool.go:218-277 | nor does a whole pass |
| RaidReplace.SyncKeepsRedundancy | internal/mdraid/mdraid.go:115-123 | a finished takeover adds one in-sync member before at most one leaves |
| RaidReplace.OnlyDiskLossesCost | internal/agent/pool.go:249-263 | over any history of single commands, syncs and plugs in any order, redundancy drops by at most one per disk failed or pulled, and by nothing else |
| RaidReplace.CountIsCardinality | internal/agent/pool.go:249-253 | redundancy is the number of slots whose disk is there and in sync |
| RaidReplace.LossesAreCounted | internal/agent/pool.go:249-253 | and losses the number of disks failed or pulled |
| RaidSwap.PassAdvances | internal/agent/pool.go:226-277 | while one disk is swapped, live or dead, a pass that is refused nothing leaves the newcomer rebuilding, or the members equal to the spec and in sync |
| RaidSwap.SyncAdvances | internal/mdraid/mdraid.go:115-123 | only the newcomer can be rebuilding, and its sync leaves strictly less to do, failing the outgoing member only now |
| RaidSwap.SwapEnds | internal/agent/pool.go:226-277 | over every history of passes and syncs there is never more to do, and after a pass with nothing rebuilding the members are exactly the spec's devices, in sync |
| DeviceReport.LinearSlots | internal/agent/pool.go:172-180 | a linear member is Missing without its disk, Rebuilding if it just joined while extents move, InSync otherwise; the pool is degraded exactly if one is Missing |
| DeviceReport.FindOrphans | internal/agent/pool.go:152-171 | the kernel-to-spec names and, in spec order, the spec devices without a present member |
| DeviceReport.NameSlot | internal/agent/pool.go:310-317 | one slot is named by its spec device, or takes the next orphan if it is a bad one, or keeps its kernel path |
| DeviceReport.Report | internal/agent/pool.go:291-318 | one row per member, each as specified by the members before it |
| DeviceReport.PresentUnderOwnPath | internal/agent/pool.go:172-188 | a member whose disk is there is reported under its own spec path |
| DeviceReport.NamedAtMostOnce | internal/agent/pool.go:172-188 | no spec device is named by two rows |
| DeviceReport.EveryLostDiskIsNamed | internal/agent/pool.go:291-318 | with as many bad slots under no spec path as spec devices without a present member, counted on slots and spec alone, every such device is named by a row in a bad state |
| DeviceReport.DeadSlotByExample | internal/agent/pool.go:291-318 | a mirror that lost its second disk reports the slot without a path as that disk |
| DeviceReport.OthersKeepTheirName | internal/agent/pool.go:181-186 | any other slot is reported as the host names it |
| DeviceReport.Join | internal/clusterstate/clusterstate.go:439-452 | spec order, with the state reported under that very path, or none |
| DeviceReport.JoinLosesNothing | internal/clusterstate/clusterstate.go:439-452 | every row about a spec device is what the UI shows for it |
| DeviceReport.ObservedComesFromRows | internal/clusterstate/clusterstate.go:439-452 | what the UI shows for a device is a row about it |
| TargetWalk.LioManager.EnsureTarget | internal/agent/lio.go:67-140 | a walk that reports no error leaves the specified configuration, but for stale LUNs whose removal failed; it reports none when enough commands succeed; on a converged host it changes nothing even if it stops part-way |
| TargetWalk.LioManager.EnsureLuns | internal/agent/lio.go:72-80 | every LUN has its backstore and is mapped, an existing backstore keeps its device |
| TargetWalk.EveryLunIsExported | internal/agent/lio.go:36-80 | after a walk every LUN is mapped through a backstore of its own name, a new one holding its device, no other backstore of the target is mapped, and what is not the target's stays |
| TargetWalk.BackstoresDiffer | internal/agent/lio.go:36-38 | different LUN ids have different backstores |
| TargetWalk.BackstoreText | internal/agent/lio.go:36-38 | their names, by example |
| TargetWalk.LioManager.EnsureAcls | internal/agent/lio.go:81-125 | admitted initiators get an ACL and their credential; authentication is on exactly when the spec names a Secret, resolved or not, so a missing one fails closed |
| TargetWalk.LioManager.PruneAcls | internal/agent/lio.go:145-161 | exactly the iqn.-type ACLs that were not granted go |
| TargetWalk.LioManager.PruneLuns | internal/agent/lio.go:163-183 | exactly this target's backstores outside the wanted ones go, except those whose removal fails |
| TargetWalk.LioManager.RemoveTarget | internal/agent/lio.go:266-279 | export, prefix-matching backstores, recorded VIP and record are gone, nothing else, but for what the host refuses to remove |
| TargetWalk.RemovalLeavesExactly | internal/agent/lio.go:58-65 | of the target exactly the refused removals stay, no other backstore is touched, and of the addresses exactly the recorded one goes, with its record |
| TargetWalk.RemovalRerunConverges | internal/agent/lio.go:263-279 | from any point a removal stopped at, a rerun ends where an uninterrupted one would have |
| TargetWalk.LioManager.TeardownTarget | internal/agent/lio.go:204-212 | the same if exported, and the spec's VIP and the recorded one are dropped |
| TargetWalk.TeardownLeavesExactly | internal/agent/lio.go:204-207 | no backstore of the target is left exactly if the export was still there or there was none |
| TargetWalk.TeardownRerunExactly | internal/agent/lio.go:204-207 | after a removal stopped behind the export's deletion, a teardown ends like an uninterrupted one exactly if all backstores were already deleted |
| TargetWalk.AclsMatchSpec | internal/agent/lio.go:114-131 | from any prior ACL set, the iqn.-type ACLs (section 4.2.7 of RFC 7143) equal the initiators needing no Secret or having a credential, each with that credential |
| TargetWalk.AccessFollowsSpec | internal/agent/lio.go:81-137 | on the spec's own fields: who has an ACL with which credential, when authentication is on, and that the VIP is up and recorded |
| TargetWalk.OtherNameTypesLinger | internal/agent/lio.go:151-154 | ACLs of other name types are never revoked |
| TargetWalk.WalkIsIdempotent | internal/agent/lio.go:40-56 | a second walk changes nothing |
| TargetWalk.ConvergedExactly | internal/agent/lio.go:67-140 | a walk changes nothing exactly on a host that has all it asks for and nothing stale |
| TargetWalk.TeardownIsIdempotent | internal/agent/lio.go:199-212 | a torn-down target has no export, no record, and neither the spec's nor the recorded VIP; doing it again changes nothing |
| TargetWalk.RemovalReaches | internal/agent/lio.go:266-276 | removal takes another target's backstores exactly when its name is this one or extends it with "-lun" |
| AppliedKey.TargetAgent.ReadLuns | internal/agent/target_reconciler.go:76-79 | the LUN part of the key |
| AppliedKey.TargetAgent.ReadSecrets | internal/agent/target_reconciler.go:80-99 | the Secret part of the key, and the credentials: absent and keyless Secrets give none |
| AppliedKey.ChapMeans | internal/agent/target_reconciler.go:80-99 | an initiator's credential is that of its own Secret if that is there with both keys, and there are no others |
| AppliedKey.KeyTextOfLun | internal/agent/target_reconciler.go:76-79 | the text of the key, by example |
| AppliedKey.KeyTextOfSecret | internal/agent/target_reconciler.go:90-93 | a Secret's part names it and its version, or that it is absent |
| AppliedKey.TargetAgent.Reconcile | internal/agent/target_reconciler.go:36-131 | a pass is one step of the memo: skip on an equal key, clear it on loss and restart, record it only after a walk without error and a stored status |
| AppliedKey.PassServesInput | internal/agent/target_reconciler.go:104-112 | a recorded pass leaves every LUN of the object mapped, authentication as the object asks and its VIP recorded |
| AppliedKey.AccessOfInput | internal/agent/target_reconciler.go:80-104 | and an ACL for an iqn.-type initiator exactly if the object lets it in |
| AppliedKey.KeyDecidesWalk | internal/agent/target_reconciler.go:71-76 | equal keys mean equal generation, LUN list and Secret versions, hence the same walk |
| AppliedKey.KeySeesChange | internal/agent/target_reconciler.go:71-76 | and only then are keys equal |
| AppliedKey.BarFreeKeySeesChange | internal/agent/target_reconciler.go:71-79 | for device paths without a bar, which drbd devices are, no other assumption on devices is needed |
| AppliedKey.LunTextDecides | internal/agent/target_reconciler.go:77-79 | the LUN text determines the LUN list when no device reads like an entry |
| AppliedKey.CleanExactly | internal/agent/target_reconciler.go:78-78 | a device name is safe exactly when it holds no bar, number and colon: any other is also the text of two LUNs |
| AppliedKey.MemoKeepsUp | internal/agent/target_reconciler.go:100-131 | along every run, a reported key names an input the host has converged to |
| AppliedKey.SkippingIsInvisible | internal/agent/target_reconciler.go:27-33 | over any run of one incarnation, restarts included, in which skips follow only full, recorded walks, the skipping agent's host equals that of one that always walks |
| AppliedKey.AllRecordedIsEligible | internal/agent/target_reconciler.go:126-129 | every run in which all walks are recorded is such a run |
| AppliedKey.StoppedWalkExactly | internal/agent/target_reconciler.go:120-125 | however far another input's unrecorded walk got, the skip that follows leaves the right host exactly when what it left has all the first input asks for and nothing stale |
| AppliedKey.LostReportExactly | internal/agent/target_reconciler.go:120-129 | for a walk that finished, exactly when both inputs have the same effect |
| AppliedKey.LingeringExactly | internal/agent/lio.go:180-181 | after a recorded walk, exactly when no stale LUN of the target's lingers |
| VipRecord.VipManager.EnsureVip | internal/agent/lio.go:289-319 | record before address; no route or a failed placement surfaces, a failed record does not |
| VipRecord.VipManager.DropVip | internal/agent/lio.go:215-221 | the address leaves every interface that gives it up |
| VipRecord.VipManager.ReleaseVip | internal/agent/lio.go:230-240 | the recorded address is dropped and the record removed |
| VipRecord.ClaimExactly | internal/agent/lio.go:302-311 | a claim keeps every held address named exactly when nothing else was held, or, unrecorded, the record already named it |
| VipRecord.SwitchForgets | internal/agent/lio.go:304-308 | after a switch the first address survives the release |
| VipRecord.ReleaseExactly | internal/agent/lio.go:230-240 | a release leaves nothing exactly when no holding interface refuses |
| VipRecord.StepKeepsInv | internal/agent/lio.go:204-240 | every host step, crash, restart, outside removal and harmless logged failure keeps the address named by its record, and what is left of a removal on course |
| VipRecord.HeldIsRecorded | internal/agent/lio.go:302-311 | with the VIP never switched, wherever crashes and harmless logged failures fall, a held address is the recorded one |
| VipRecord.RemovalClears | internal/agent/lio.go:263-279 | a removal that reached its end, object gone or not, leaves the address on no interface and no record |
| VipRecord.ToleratedExactly | internal/agent/lio.go:215-240 | at every point of such a run: a logged failure is harmless exactly if the rest of the call, undisturbed, never holds the address without its record and leaves nothing of a removal |
| VipRecord.FailedWriteExactly | internal/agent/lio.go:304-311 | a failed record write is harmless exactly if the record is already there |
| VipRecord.FailedDelExactly | internal/agent/lio.go:216-239 | a failed delete before the record goes is harmless exactly if the interface no longer holds the address |
| VipRecord.ExecShortens | internal/agent/lio.go:204-240 | each command brings the call closer to its end |
| VipRecord.EnsureRuns | internal/agent/lio.go:289-311 | a claim left alone ends with the record down and the address up |
| VipRecord.RemoveRuns | internal/agent/lio.go:230-240 | a removal left alone ends like an uninterrupted release |
| VipRecord.TeardownRuns | internal/agent/lio.go:204-212 | a teardown left alone drops the spec's address, recorded or not, and then the recorded one |
| SnapshotFrame.Aggregate | internal/clusterstate/clusterstate.go:360-381 | one row per identity, found through the index, equal to the specified row |
| SnapshotFrame.RowSums | internal/clusterstate/clusterstate.go:360-381 | a row exists exactly for identities that occur, and its count is the group's sum |
| SnapshotFrame.RowIsNewest | internal/clusterstate/clusterstate.go:373-376 | its time is the group's maximum, its message that of an event at that time |
| SnapshotFrame.RowsAgree | internal/clusterstate/clusterstate.go:360-381 | names, sum and maximum are the same in every order of the events |
| SnapshotFrame.OrderFreeExactly | internal/clusterstate/clusterstate.go:373-376 | the whole row is, exactly when the group's newest events say the same |
| SnapshotFrame.RowsAreCanonical | internal/clusterstate/clusterstate.go:360-381 | two listings of the same events give the same rows |
| SnapshotFrame.CanonicalExactly | internal/clusterstate/clusterstate.go:383-413 | a sorted list is the only sorted arrangement of its rows exactly when no two different rows tie |
| SnapshotFrame.ShapedRowsDoNotTie | internal/clusterstate/clusterstate.go:383-389 | with API-shaped names no two rows tie in the alert order |
| SnapshotFrame.TextCanTie | internal/clusterstate/clusterstate.go:387-388 | without them two different rows can |
| SnapshotFrame.LessByFirstDifference | internal/clusterstate/clusterstate.go:383-389 | texts compare by their first difference, so the newest time comes first |
| SnapshotFrame.CapKeepsNewest | internal/clusterstate/clusterstate.go:382-392 | the cap keeps a hundred rows, and drops none newer than one it keeps |
| SnapshotFrame.NamedListIsCanonical | internal/clusterstate/clusterstate.go:396-413 | lists sorted by unique keys are the same for every listing order |
| SnapshotFrame.FeedIsCanonical | internal/clusterstate/clusterstate.go:360-395 | the whole alert feed depends only on which events and failing disks there are |

## Left out

- Text and JSON of host commands (nsenter, targetcli, mdadm, lvm, exportfs, samba): foreign tools, replaced by abstract host states.
- The HTTP API, authentication, WebSocket pumps and ping timers, TTL cache, task tracking, SMART and inventory polling: thin or easy.
- A nil event bus, unsubscribing, and encoding failures of a frame.
- chapSecrets on the operator side: it enters a pass as "some Secret is unusable".
- Creating volume groups, thin pools and arrays: a first pass enters the models as an arbitrary built host, or as an existing group or array.
- The health of raid pools, capacity, rebuild percentage, PV labels outside a teardown, events, messages and requeue intervals.
- TargetWalk.LioManager.EnsureLuns: an existing backstore keeps its device, because `ensure` tolerates the existing object; so only backstore names converge, as in the code.
- Liveness of Available after a fast move away and back: the skip path stores no status, so only safety is proved.
- Node reboots restoring saved LIO configuration, informer lag, reuse of an object name while a node is cut off.
- Several disks of a linear pool swapped at once: convergence is proved for one swap with live replacements; that a pass loses nothing is proved for all.
- The one-slot channels' `quit` case: a connection leaves the map under the hub's lock before it is closed.
- Tier and thin-pool name in the r-drbd Pool's location: deletion compares node and volume group only, and so does the model.
