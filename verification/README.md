# Node packs, runtimes and workflow tools: models and proofs

This project models the parts of the AMVision backend that change durable state in several steps or transform
documents, and proves what those parts promise. Each module follows one component:

- `PackageTree`, `NodePackDisk`, `NodePackActivation`, `NodePackCrashes`, `NodePackPlans`, `NodePackRuns`,
  `NodePackConsistency`, `NodePackDelivery`, `NodePackTraces`, `NodePackManager`: installing, upgrading and rolling back
  node packs. The disk is a record of maps (active directories, candidates, swap directories, version store, state
  file, journal). Every effect the code makes is one step; to every step the environment answers that it happens,
  raises, or ends the process. `NodePackDelivery` tells what a caller gets: what is accepted, and what is active then.
- `RuntimeLifecycle`, `InferenceRuntime`, `InferenceOrder`: the start/stop automaton and the staged start and stop of
  the inference daemon. What the components are told is a record, and the properties are about that record.
- `CatalogMerge`, `NodePackScan`, `NodePackLoader`, `DependencyEnabling`, `NodePackSwitching`, `NodeCatalog`: the local
  loader, its status scan, enabling with dependencies, and the registry that merges the core nodes with the packs.
- `GraphLayers`, `StableSort`, `BlockLayout`, `LayoutShape`: the layered layout of one group of nodes.
- `DateTimeTemplate`, `DateTimeDigits`: the date and time templates of file names.
- `RenameSaga`: the rename-aside, commit, delete saga of the development reset.
- `SaveLocationMigration`, `SaveLocationValues`: the migration of saved workflows.
- `TextTools`, `SchemaEnrichment`, `SchemaTexts`: filling in titles and descriptions of node definitions.
- `PoseDataset`, `PoseLaws`: deduplication, splits and label normalization of the pose benchmark.
- `Common`: small shared definitions.

Code that changes things step by step is a class or a method with loops, proved against a specification function;
what the code promises is then proved about that function. `NodePackDelivery`, `InferenceOrder`,
`NodePackSwitching`, `LayoutShape`, `DateTimeDigits`, `SaveLocationValues`, `SchemaTexts` and `PoseLaws` tell the
outcomes from the inputs alone, without naming those functions' parts.

## Where the code falls short

Properties one would expect and the code does not have are stated with the exact condition under which they hold,
and with a concrete input or run from a consistent state:

- An activation is not atomic under a crash in two windows of one effect each: between the first rename and the
  journal write that reports it, and between the state write and the removal of the journal
  (`CrashIsAtomic`, `SwitchLosesDirectory`, `SwitchForgetsDirectory`).
- Compensation and recovery are not re-entrant (`CrashInCompensation`, `CrashInRecovery`,
  `SecondDeathLosesDirectory`), and a blocked recovery stays blocked (`BlockedForever`).
- A commit keeps the active pointers right exactly when the target directory belongs to no other managed pack; the
  code does not check it (`CommitConsistent`, `IntruderTakesDirectory`).
- An upload of a version that is stored already is accepted when the digests agree, and activates what is stored: the
  flag asked for takes effect only where it is the stored one, or where nothing is known of that version
  (`InstallDelivers`, `FlagAskedForIsLost`).
- Copying a package drops `*.pyo` files, a file named just `.pyc`, and anything below a directory whose name ends in
  `.pyc` or `.pyo`, all of which the digest counts (`CopyPreservesFraming`, `CompiledFileIsDropped`).
- A manifest that is invalid only because of its flag is shown under the name of its directory and without
  dependencies, so switching it, on or off, checks nothing about it. Unique ids, dependency closure and the
  topological order survive a granted call exactly when, among the manifests before it, the repaired id is not taken
  and, if it is enabled, it is compatible and its dependencies are satisfied (`SetEnabledKeepsOrderly`,
  `RunsStayOrderly`, `RepairKeepsOrderly`; `RepairCanBreakClosure`, `RepairCanTakeAnId`). A repaired manifest that
  would depend on itself is refused by its validation (`RepairOnItselfIsRefused`).
- A local server whose preparation was attempted has been stopped when the database engine is disposed if and only if
  the preparation returned or the pass is a stop, not the rollback of the start (`PreparedServerIsStopped`,
  `FailedPreparationIsNotStopped`).
- The pending clean-up lists, beside the paths whose removal failed, exactly the staging paths inside a directory
  renamed later, although nothing of them is left (`PendingIs`, `NothingPending`, `NestedIsReportedPending`).
- Enriching a schema twice can change a title once more: the title of a property whose name has only separators and
  blanks is stripped by the second pass (`EnrichTwice`, `TitleCanChangeTwice`).
- Label normalization writes three values per keypoint, so its output is a fixed point exactly for three
  dimensions (`LineSettles`).

## Model

| member | source | states |
|---|---|---|
| `PackageTree.HashPackageTree` | backend/nodes/node_pack_lifecycle.py:1315-1357 | The file and chunk loops feed the hash, in order, path, NUL, content, NUL of every file outside caches, the manifest as its canonical dump |
| `PackageTree.FeedFile` | backend/nodes/node_pack_lifecycle.py:1331-1356 | One file adds its frame to what was fed, or nothing for a cache file |
| `PackageTree.FeedChunks` | backend/nodes/node_pack_lifecycle.py:1353-1356 | Feeding a file chunk by chunk feeds exactly its bytes |
| `PackageTree.FileIs` | backend/nodes/node_pack_lifecycle.py:1327-1373 | Which files are hashed and which are copied, by the parts of their paths |
| `PackageTree.CopyPreservesFraming` | backend/nodes/node_pack_lifecycle.py:1360-1373 | A copy feeds the hash the same bytes exactly when every hashed file is also copied |
| `PackageTree.CopyTwice` | backend/nodes/node_pack_lifecycle.py:1360-1373 | Copying a copy drops nothing more, so what is stored is activated as it stands |
| `PackageTree.DigestOfCleanCopy` | backend/nodes/node_pack_lifecycle.py:943-948 | The digest check after copying passes for a tree without caches |
| `PackageTree.FramingIsNotInjective` | backend/nodes/node_pack_lifecycle.py:1327-1357 | Two different trees can feed the hash the same bytes |
| `PackageTree.WithEnabledKeepsDigest` | backend/nodes/node_pack_lifecycle.py:1335-1348 | Rewriting the enabled flag never changes what is hashed |
| `PackageTree.WithEnabledKeepsManifest` | backend/nodes/node_pack_lifecycle.py:1114-1125 | Rewriting the flag changes nothing else of the manifest |
| `NodePackActivation.ExecIsAfter` | backend/nodes/node_pack_lifecycle.py:951-1038 | The disk after the first k effects of an activation, for every k, in closed form |
| `NodePackActivation.RecoveredIs` | backend/nodes/node_pack_lifecycle.py:1063-1096 | What one complete recovery makes of any disk with a journal: which directory is active, and no candidate, swap directory or journal left |
| `NodePackCrashes.CompensationRestores` | backend/nodes/node_pack_lifecycle.py:1040-1061 | Wherever the activation raises inside its try block or in the state write, the compensated disk is the disk before, with or without a previous version |
| `NodePackCrashes.CrashBeforeStateWrite` | backend/nodes/node_pack_lifecycle.py:951-1032 | After a crash before the state write and one recovery, state and store are the old ones and the active directories come back exactly outside the first window; when nothing at all is left over |
| `NodePackCrashes.CrashAfterStateWrite` | backend/nodes/node_pack_lifecycle.py:1034-1038 | After a crash once the journal is gone the new directory and the new state stand; before, the old directory comes back under the new state |
| `NodePackCrashes.CrashIsAtomic` | backend/nodes/node_pack_lifecycle.py:951-1038 | One crash and one recovery give the old or the new directories and state, if and only if the crash missed the two windows |
| `NodePackCrashes.CrashInCompensation` | backend/nodes/node_pack_lifecycle.py:1040-1061 | After a crash at any effect of the compensation, recovery restores the old directories exactly outside the listed effects, where it loses the switched one |
| `NodePackCrashes.CrashInRecovery` | backend/nodes/node_pack_lifecycle.py:1084-1096 | A second recovery ends where the first would have, exactly when the first was cut before its rename back, or after its journal removal, or had nothing to move |
| `NodePackCrashes.RecoveryRepeats` | backend/nodes/node_pack_lifecycle.py:1063-1096 | On any disk: a recovery that had nothing to move back, or was cut before it did, or had finished, is completed by the next one |
| `NodePackCrashes.RecoveryCutShort` | backend/nodes/node_pack_lifecycle.py:1084-1096 | On any disk: a recovery cut short after it put the previous directory back leaves either a recovery that cannot proceed, with exactly when, or one that takes that directory away |
| `NodePackTraces.SwitchLosesDirectory` | backend/nodes/node_pack_lifecycle.py:984-988 | From a consistent disk, under any hash: a rollback that dies in the first window, then a complete recovery, leave no active directory |
| `NodePackTraces.SwitchForgetsDirectory` | backend/nodes/node_pack_lifecycle.py:245-250 | The same through the second window leaves version 1 under a state naming version 2 |
| `NodePackTraces.SecondDeathLosesDirectory` | backend/nodes/node_pack_lifecycle.py:1084-1094 | A death that one recovery repairs completely loses the directory when that recovery dies after its rename back |
| `NodePackTraces.DemoIsGood` | backend/nodes/node_pack_lifecycle.py:428-468 | The disk these runs start from, two stored versions and the first active, is consistent |
| `NodePackTraces.IntruderTakesDirectory` | backend/nodes/node_pack_lifecycle.py:119-280 | From a consistent disk an install of a new pack whose directory has the name of a managed one leaves two packs in one directory and the first without any |
| `NodePackTraces.CompiledFileIsDropped` | backend/nodes/node_pack_lifecycle.py:1360-1373 | A `.pyo` file is hashed and not copied, so the copy feeds the hash other bytes |
| `NodePackTraces.FlagAskedForIsLost` | backend/nodes/node_pack_lifecycle.py:165-213 | An upload of the stored version 1, to be switched off, is accepted and leaves version 1 switched on |
| `NodePackPlans.StorePutKeeps` | backend/nodes/node_pack_lifecycle.py:922-949 | Storing a version touches only the store, overwrites nothing, and leaves the version registered under its digest |
| `NodePackPlans.PlanReplaceKeeps` | backend/nodes/node_pack_lifecycle.py:882-920 | Archiving keeps the store invariant, and afterwards the version about to be replaced is stored under the digest of its directory |
| `NodePackPlans.PlanInstallSound` | backend/nodes/node_pack_lifecycle.py:165-229 | Every decision of an install, refusals included, keeps the store invariant; a decision to activate activates a stored version and changes only its own pack's state |
| `NodePackPlans.PlanRollbackSound` | backend/nodes/node_pack_lifecycle.py:301-393 | The same for a rollback |
| `NodePackRuns.EventKeepsStore` | backend/nodes/node_pack_lifecycle.py:922-949 | One operation with any fault keeps the store invariant and everything stored |
| `NodePackRuns.RunKeepsStore` | backend/nodes/node_pack_lifecycle.py:201-227 | Over every run with crashes at any effect: each version the state names is stored with its recorded digest, and nothing stored changes or disappears |
| `NodePackRuns.ReplacedContentIsStored` | backend/nodes/node_pack_lifecycle.py:182-199 | Once an upgrade or rollback has begun to activate, the replaced content is in the store however it and every later operation end |
| `NodePackRuns.ActivationEndsIs` | backend/nodes/node_pack_lifecycle.py:1012-1024 | An activation that raised and was compensated ends on the disk it began with, any other single stop on the disk after its first effects |
| `NodePackRuns.ActivationEndsStore` | backend/nodes/node_pack_lifecycle.py:951-1061 | Wherever an activation or its compensation stops, the store is untouched and the state is the old or the new one |
| `NodePackRuns.LoaderPutsBack` | backend/nodes/local_node_pack_loader.py:240-245 | What the loader puts back after a failed reload is the manifest before, byte for byte |
| `NodePackConsistency.ExactlyOneActive` | backend/nodes/node_pack_lifecycle.py:428-468 | On a consistent disk exactly one listed version is active, and the pack's one directory has its digest |
| `NodePackConsistency.NeverTampered` | backend/nodes/node_pack_lifecycle.py:893-907 | From a consistent disk no install or rollback meets the tamper error |
| `NodePackConsistency.ActivationEndsGood` | backend/nodes/node_pack_lifecycle.py:951-1061 | However an activation stops (completed, raised, dead, or dead while compensating), the disk is consistent after the next recovery if and only if that stop missed the windows and the effects that lose the directory and, once committed, the directory is no other managed pack's |
| `NodePackConsistency.CommitConsistent` | backend/nodes/node_pack_lifecycle.py:959-990 | A commit keeps consistency if and only if the directory is no other managed pack's |
| `NodePackConsistency.DeathConsistent` | backend/nodes/node_pack_lifecycle.py:951-1038 | After one death and one recovery the disk is consistent if and only if the death missed both windows and, once committed, the directory is no other managed pack's |
| `NodePackConsistency.AlreadyActiveIs` | backend/nodes/node_pack_lifecycle.py:245-250 | The new state fits the old directories exactly when they already hold that version with that digest, so only a switch to what is already active survives the second window |
| `NodePackConsistency.CompensationDeathConsistent` | backend/nodes/node_pack_lifecycle.py:1040-1061 | After a death inside the compensation and one recovery the disk is consistent if and only if the compensation was outside the effects that lose the directory, or no managed pack lives there |
| `NodePackConsistency.FlagWriteKeeps` | backend/nodes/node_pack_lifecycle.py:519-578 | An enable toggle, finished or cut short, keeps consistency |
| `NodePackConsistency.EventKeepsGood` | backend/nodes/node_pack_lifecycle.py:119-280 | One event, an operation with any fault or a recovery cut short, keeps consistency if and only if it is covered |
| `NodePackConsistency.RunKeepsGood` | backend/nodes/node_pack_lifecycle.py:119-578 | Over every run of operations that complete, are refused, raise, die, or die while compensating, and of recoveries that die anywhere: the active pointers are right after every event if and only if every event is covered |
| `NodePackConsistency.BlockedForever` | backend/nodes/node_pack_lifecycle.py:1084-1088 | On a disk whose recovery is blocked no later operation changes anything |
| `NodePackConsistency.FreshDiskIsGood` | backend/nodes/node_pack_lifecycle.py:1162-1178 | A disk the manager never touched is consistent |
| `NodePackDelivery.SafeVersionIs` | backend/nodes/node_pack_lifecycle.py:1127-1136 | A version accepted for the store is letters, digits and marks, not a mark first: it names one folder below the store |
| `NodePackDelivery.InstallIs` | backend/nodes/node_pack_lifecycle.py:165-250 | Exactly when an install is accepted (manifest, validation, one directory of the right name with its registered content, the same digest as any version known under that name, a free transaction), and the state and content it activates |
| `NodePackDelivery.RollbackIs` | backend/nodes/node_pack_lifecycle.py:301-393 | Exactly when a rollback is accepted, and that it activates the stored tree of the requested version with its recorded digest |
| `NodePackDelivery.InstallRefusalIs` | backend/nodes/node_pack_lifecycle.py:165-250 | Every refusal of an install is true; it is a version conflict if and only if the version is known under another digest |
| `NodePackDelivery.RollbackRefusalIs` | backend/nodes/node_pack_lifecycle.py:301-393 | Every refusal of a rollback is true |
| `NodePackDelivery.PlanDelivers` | backend/nodes/node_pack_lifecycle.py:951-1038 | An operation that is refused or whose switch the loader or the callback rejects changes nothing but the store; any other switches exactly its directory and its entry |
| `NodePackDelivery.InstallDelivers` | backend/nodes/node_pack_lifecycle.py:119-280 | After an install that goes through, its directory holds the id, version and digest of the upload, with the content and flag stored under that version or else those asked for, and no other directory or pack changed |
| `NodePackDelivery.RollbackDelivers` | backend/nodes/node_pack_lifecycle.py:301-393 | After a rollback that goes through, its directory holds the stored version with its recorded digest |
| `NodePackDelivery.ToggleDelivers` | backend/nodes/node_pack_lifecycle.py:519-578 | A toggle changes at most the flag of the one directory that carries the pack, the digest stays: the flag asked for when the switch is kept, else the one before |
| `NodePackManager.LifecycleManager.Attempt` | backend/nodes/node_pack_lifecycle.py:1233-1246 | One atomic effect happens completely or not at all, as the environment answers |
| `NodePackManager.LifecycleManager.Rename` | backend/nodes/node_pack_lifecycle.py:984-990 | The directory renames, each guarded as the code guards it |
| `NodePackManager.LifecycleManager.Write` | backend/nodes/node_pack_lifecycle.py:1233-1246 | The atomic writes and deletions change just their own part of the disk |
| `NodePackManager.LifecycleManager.RecoverUnfinishedTransaction` | backend/nodes/node_pack_lifecycle.py:1063-1096 | Carries out the recovery's effects in order, stopping exactly where the environment stops it; a blocked one changes nothing |
| `NodePackManager.LifecycleManager.TidyUpAfter` | backend/nodes/node_pack_lifecycle.py:1090-1095 | The end of a recovery removes candidate, swap directory and journal, in this order |
| `NodePackManager.LifecycleManager.Recover` | backend/nodes/node_pack_lifecycle.py:142-144 | Every operation begins with a recovery; a blocked or interrupted one ends it |
| `NodePackManager.LifecycleManager.RollbackActivation` | backend/nodes/node_pack_lifecycle.py:1040-1061 | Carries out the compensation's effects in order; a raise and a death at an effect leave the same disk |
| `NodePackManager.LifecycleManager.ActivateStoredVersion` | backend/nodes/node_pack_lifecycle.py:951-1032 | Carries out the activation's effects in order and ends well exactly when the loader and the callback accept the switched directory |
| `NodePackManager.LifecycleManager.CommitActivation` | backend/nodes/node_pack_lifecycle.py:1034-1038 | Carries out the commit's effects in order |
| `NodePackManager.LifecycleManager.SwitchTo` | backend/nodes/node_pack_lifecycle.py:229-250 | Activation, state write, compensation and commit end on the disk of the fault they report, and the environment caused that fault |
| `NodePackManager.LifecycleManager.Compensate` | backend/nodes/node_pack_lifecycle.py:1012-1024 | A raise inside the try block is compensated, and dying in the compensation is reported as that |
| `NodePackManager.LifecycleManager.StoreImmutableVersion` | backend/nodes/node_pack_lifecycle.py:922-949 | Stores a verified copy or accepts what is there, with each refusal |
| `NodePackManager.LifecycleManager.ArchiveActiveVersion` | backend/nodes/node_pack_lifecycle.py:857-920 | Finds the one active directory, insists on its name, and archives an unregistered version, with each refusal |
| `NodePackManager.LifecycleManager.InstallArchive` | backend/nodes/node_pack_lifecycle.py:119-280 | Recovery and install end on the disk the run semantics gives the reported event, whose fault the environment caused, and the caller is told exactly the refusal of the plan |
| `NodePackManager.LifecycleManager.InstallRecovered` | backend/nodes/node_pack_lifecycle.py:165-250 | After the recovery: stage, archive, store, activate and commit, or the first refusal, which is returned |
| `NodePackManager.LifecycleManager.Finish` | backend/nodes/node_pack_lifecycle.py:220-250 | Activates what the store holds, or refuses |
| `NodePackManager.LifecycleManager.RollBackTo` | backend/nodes/node_pack_lifecycle.py:282-426 | The same for a rollback |
| `NodePackManager.LifecycleManager.RollBackRecovered` | backend/nodes/node_pack_lifecycle.py:301-399 | After the recovery: check the stored version, archive, activate and commit, or the first refusal, which is returned |
| `NodePackManager.LifecycleManager.SetEnabled` | backend/nodes/node_pack_lifecycle.py:519-578 | The same for an enable toggle, which is refused exactly when no directory or several carry the pack |
| `NodePackManager.LifecycleManager.WriteFlags` | backend/nodes/node_pack_lifecycle.py:540-559 | The manifest writes of a toggle end on the disk of the outcome they report |
| `NodePackManager.LifecycleManager.LoaderWrites` | backend/nodes/local_node_pack_loader.py:230-245 | The new flag is written unless the loader refuses, and the old text is put back when the reload fails |
| `NodePackManager.LifecycleManager.PutFlags` | backend/nodes/node_pack_lifecycle.py:540-559 | The original manifest is written again exactly after something raised: the loader's refusal, a write of its own, its reload, or the callback |
| `RuntimeLifecycle.LivesAreOrderly` | backend/bootstrap/core.py:18-58 | Over every sequence of calls and outcomes: the start body runs at most once and first, a completed drain never again, nothing after a completed final stop, and the phase is what the bodies that ran say |
| `RuntimeLifecycle.OrderlyIsExact` | backend/bootstrap/core.py:18-58 | The sequences of bodies that can happen are exactly the orderly ones |
| `RuntimeLifecycle.StoppedAbsorbs` | backend/bootstrap/core.py:43-48 | Once stopped, no call changes anything |
| `RuntimeLifecycle.Guard.EnterStarting` | backend/bootstrap/core.py:25-34 | The start side of the automaton on the object's fields |
| `RuntimeLifecycle.Guard.LeaveStarting` | backend/bootstrap/core.py:35-41 | A failed start leaves the container stop-pending, a good one running |
| `RuntimeLifecycle.Guard.EnterStopping` | backend/bootstrap/core.py:43-49 | The stop side of the automaton on the object's fields |
| `RuntimeLifecycle.Guard.LeaveStopping` | backend/bootstrap/core.py:50-58 | A failed stop commits nothing, a drain is remembered, a final stop is final |
| `InferenceRuntime.RunsAreSound` | backend/inference_daemon/runtime.py:94-174 | Over every sequence of starts and stops with any failures: the engine is disposed only at the end of a pass through all stages, when everything started and a prepared server have been stopped since; a stage is stopped only after all earlier stages in that pass, nothing starts after a stop; running means a complete start |
| `InferenceRuntime.StageIsSound` | backend/inference_daemon/runtime.py:155-174 | One stage keeps that record sound and ends well exactly when nothing failed before and every stop it called returned; then every component in scope has stopped |
| `InferenceRuntime.StageTellsAll` | backend/inference_daemon/runtime.py:155-174 | An ordinary failure of one component does not keep the others of its stage from being told to stop |
| `InferenceRuntime.PassIsSound` | backend/inference_daemon/runtime.py:132-153 | A pass disposes the engine exactly when it ends well, and then everything started and a prepared server are stopped |
| `InferenceRuntime.PreparedServerIsStopped` | backend/inference_daemon/runtime.py:101-153 | In every run, whenever the engine is disposed, the server whose preparation was attempted has been stopped if and only if the preparation returned or the pass is not the rollback of a start |
| `InferenceRuntime.StartAllIsSound` | backend/inference_daemon/runtime.py:94-124 | A start, rolled back or not, keeps the record sound; a good one started everything in order |
| `InferenceRuntime.StartOrderIsKnown` | backend/inference_daemon/runtime.py:101-153 | Everything a start may start belongs to some stage of the stop |
| `InferenceRuntime.FailedPreparationIsNotStopped` | backend/inference_daemon/runtime.py:103-124 | A failed preparation: the rollback stops nothing and disposes the engine at once |
| `InferenceOrder.StagesAre` | backend/inference_daemon/runtime.py:132-153 | The stages one after the other are the order of a stop: publisher, server, dispatcher, reconciler, then the gateways, then two supervisors a task, the last task first |
| `InferenceOrder.StartOrderIs` | backend/inference_daemon/runtime.py:101-119 | The order of a start: of every task both supervisors and then its gateway, then reconciler, dispatcher, server, publisher |
| `InferenceOrder.PassTells` | backend/inference_daemon/runtime.py:132-153 | A pass tells the components in its scope in the order of a stop: all of them and then the engine, or a first part of them |
| `InferenceOrder.ConsumersOutlive` | backend/inference_daemon/runtime.py:132-174 | Over every run and pass, by roles: a gateway is told to stop only after every producer in scope has stopped in that pass, a supervisor only after every producer and every gateway has |
| `InferenceOrder.RunsStartInOrder` | backend/inference_daemon/runtime.py:101-119 | Over every run, whatever is prepared or started is the next one of the whole start, all before it having started |
| `InferenceOrder.StageReports` | backend/inference_daemon/runtime.py:155-174 | A stage reports the fatal exception that ended it, else an ordinary error if there was one |
| `InferenceOrder.FailedStartReports` | backend/inference_daemon/runtime.py:101-124 | A failed start whose rollback went through raises what the failing component raised |
| `InferenceOrder.RunsAnswer` | backend/inference_daemon/runtime.py:88-131 | Over every run: a stop does nothing once a stop has ended well, and else is a pass over everything; a start runs on a new container only, later does nothing, and is an error once something has begun to stop |
| `InferenceRuntime.InferenceDaemonRuntime.Start` | backend/inference_daemon/runtime.py:88-92 | Starts once, skips while running, refuses afterwards |
| `InferenceRuntime.InferenceDaemonRuntime.StartInOrder` | backend/inference_daemon/runtime.py:101-119 | The start loop calls the components in dependency order until one raises and collects what the rollback must stop |
| `InferenceRuntime.InferenceDaemonRuntime.StartTasks` | backend/inference_daemon/runtime.py:106-113 | The task loop: both supervisors, then the gateway, of every task, until one raises |
| `InferenceRuntime.InferenceDaemonRuntime.StartOne` | backend/inference_daemon/runtime.py:112-113 | A component is registered for the rollback before it is started |
| `InferenceRuntime.InferenceDaemonRuntime.StartEverything` | backend/inference_daemon/runtime.py:94-124 | A failed start stops what it attempted; an error of that stop replaces the first |
| `InferenceRuntime.InferenceDaemonRuntime.Stop` | backend/inference_daemon/runtime.py:126-130 | Stops until a pass succeeds, then never again |
| `InferenceRuntime.InferenceDaemonRuntime.StopEverything` | backend/inference_daemon/runtime.py:132-153 | Three stages, each only after the one before, then the engine |
| `InferenceRuntime.InferenceDaemonRuntime.StopComponents` | backend/inference_daemon/runtime.py:155-174 | The stop loop over one stage, first error kept |
| `CatalogMerge.Merge` | backend/nodes/node_catalog_registry.py:97-149 | The merge loop succeeds exactly when all entries of one id agree, gives the first entry of every id in order, and otherwise names the id of the first entry that differs |
| `CatalogMerge.FirstsAreFirst` | backend/nodes/local_node_pack_loader.py:978-996 | The merged list holds exactly the ids of the input, each once, by its first entry |
| `CatalogMerge.MergeIsAssociative` | backend/nodes/node_catalog_registry.py:69-79 | Merging the core with already merged packs succeeds for the same inputs, with the same list, as merging everything at once |
| `NodePackScan.BuildIndex` | backend/nodes/local_node_pack_loader.py:602-622 | The index holds the first manifest of every id, and the duplicated ids are exactly those met twice |
| `NodePackScan.BuildDependencyStatuses` | backend/nodes/local_node_pack_loader.py:624-648 | Installed, enabled, version and satisfied of every dependency, in order |
| `NodePackScan.ItemSaysLoaded` | backend/nodes/local_node_pack_loader.py:417-572 | An item is loaded with a catalog exactly when a refresh collects that pack, with that many nodes |
| `NodePackScan.CacheAgreesWithScan` | backend/nodes/local_node_pack_loader.py:45-127 | After a refresh the cached definitions come, in order, from exactly the packs the scan marks loaded with a catalog, and their number is the sum of the counts |
| `NodePackLoader.LocalNodePackLoader.Discover` | backend/nodes/local_node_pack_loader.py:66-79 | The manifests in directory order, failing on a backend pack that cannot be imported |
| `NodePackLoader.LocalNodePackLoader.Collect` | backend/nodes/local_node_pack_loader.py:92-118 | The catalogs of exactly the usable packs, appended in order; only configuration errors are passed over |
| `NodePackLoader.LocalNodePackLoader.CollectAll` | backend/nodes/local_node_pack_loader.py:60-124 | The collected catalog exactly when every backend pack can be imported, every usable catalog is readable and the contracts agree; otherwise the first of these that fails |
| `NodePackLoader.LocalNodePackLoader.Refresh` | backend/nodes/local_node_pack_loader.py:45-127 | Replaces the cache exactly when everything goes through, and otherwise says what stopped it |
| `NodePackLoader.LocalNodePackLoader.SetNodePackEnabled` | backend/nodes/local_node_pack_loader.py:173-245 | Refuses or switches one flag as specified; a rejected reload restores the manifest |
| `DependencyEnabling.GrantedEnable` | backend/nodes/local_node_pack_loader.py:209-228 | A granted enable means a compatible target with every dependency satisfied |
| `DependencyEnabling.GrantedDisable` | backend/nodes/local_node_pack_loader.py:196-208 | A granted disable means that no other enabled pack depends on the target |
| `DependencyEnabling.EnablingKeepsClosed` | backend/nodes/local_node_pack_loader.py:624-648 | Enabling such a target keeps every enabled pack satisfied |
| `DependencyEnabling.DisablingKeepsClosed` | backend/nodes/local_node_pack_loader.py:624-648 | So does disabling a pack nobody enabled depends on |
| `DependencyEnabling.EnablingKeepsOrder` | backend/nodes/local_node_pack_loader.py:209-228 | Enabling a satisfied pack keeps a topological order of the enabled packs |
| `DependencyEnabling.DisablingKeepsOrder` | backend/nodes/local_node_pack_loader.py:196-208 | So does disabling a pack nobody enabled depends on |
| `DependencyEnabling.SetEnabledKeepsOrderly` | backend/nodes/local_node_pack_loader.py:173-245 | Every call from an orderly state keeps unique ids, dependency closure and a topological order if and only if it was refused or was safe: a manifest it repairs has a free id and, if enabled, is compatible and satisfied by the manifests before |
| `DependencyEnabling.RunsStayOrderly` | backend/nodes/local_node_pack_loader.py:173-245 | Over every run from an orderly state, the state is orderly after every call if and only if every granted call was safe where it happened |
| `DependencyEnabling.NothingEnabledIsOrderly` | backend/nodes/local_node_pack_loader.py:185-228 | A directory with unique ids and nothing enabled is such a state |
| `DependencyEnabling.CycleNeverEnabled` | backend/nodes/local_node_pack_loader.py:219-228 | In such a state no member of a dependency cycle is enabled |
| `DependencyEnabling.RepairKeepsOrderly` | backend/nodes/local_node_pack_loader.py:230-239 | A granted call, on or off, on a manifest that its new flag makes valid keeps the state orderly if and only if the manifests before the call make the repair safe |
| `DependencyEnabling.RepairCanBreakClosure` | backend/nodes/local_node_pack_loader.py:230-239 | One such manifest that is enabled with a dependency that is not installed |
| `DependencyEnabling.RepairCanTakeAnId` | backend/nodes/local_node_pack_loader.py:196-239 | One such manifest, switched off, that takes the id of an enabled pack and breaks the closure of an orderly state |
| `DependencyEnabling.RepairOnItselfIsRefused` | backend/contracts/nodes/node_pack_manifest.py:329-337 | A manifest that would depend on itself is not repaired, whatever the flag |
| `NodePackSwitching.StatusIs` | backend/nodes/local_node_pack_loader.py:624-648 | A dependency is satisfied exactly when one manifest has the id and is enabled, compatible and in range; installed when some manifest has it |
| `NodePackSwitching.ActiveIs` | backend/nodes/local_node_pack_loader.py:184-228 | The catalogs collected are those of exactly the packs that are enabled, compatible, alone with their id, and have every dependency met, told from the manifests |
| `NodePackSwitching.ItemIs` | backend/nodes/local_node_pack_loader.py:417-572 | Everything the status scan says about a directory, told from the manifests: state, flag, node count, and each dependency |
| `NodePackSwitching.SwitchDoes` | backend/nodes/local_node_pack_loader.py:173-245 | A granted call leaves the same packs in the same order and changes exactly the first one that goes by the id: its manifest has the flag asked for and is otherwise as it was; a refused one changes nothing |
| `NodePackSwitching.SwitchIsGranted` | backend/nodes/local_node_pack_loader.py:173-245 | A call whose target may be switched, whose manifest can be rewritten and whose refresh goes through is granted |
| `NodePackSwitching.RefusalIs` | backend/nodes/local_node_pack_loader.py:184-245 | Every refusal of a call is true, naming the packs that need the target, or the first dependency that is not met |
| `NodeCatalog.RegistryIsOneMerge` | backend/nodes/node_catalog_registry.py:61-79 | The registry over a refreshed loader is one merge over core and packs: it exists exactly when same-id entries agree across all layers, and its ids are unique |
| `NodeCatalog.NodeCatalogRegistry.GetCatalogSnapshot` | backend/nodes/node_catalog_registry.py:32-41 | The cached snapshot if there is one, else the merge, cached only if it succeeds |
| `NodeCatalog.NodeCatalogRegistry.InvalidateCache` | backend/nodes/node_catalog_registry.py:43-52 | The next reader merges again |
| `NodeCatalog.NodeCatalogRegistry.Refresh` | backend/nodes/node_catalog_registry.py:54-59 | A loader that raises leaves both caches alone, else both are renewed |
| `GraphLayers.Layers` | scripts/arrange_linescan_front_workflow.py:67-77 | The layering loop terminates and fails exactly on a repeated member or a cycle inside the group |
| `GraphLayers.DepthIsLongestPath` | scripts/arrange_linescan_front_workflow.py:76-77 | A depth is the length of the longest path inside the group that ends in the member |
| `GraphLayers.StuckHasCycle` | scripts/arrange_linescan_front_workflow.py:69-75 | A set in which everything has a predecessor contains a cycle |
| `GraphLayers.Ready` | scripts/arrange_linescan_front_workflow.py:69-73 | The members of a round are exactly those without a depth whose predecessors have one |
| `GraphLayers.Assign` | scripts/arrange_linescan_front_workflow.py:76-77 | A round gives every ready member its depth and keeps the layering |
| `StableSort.SortedKeeps` | scripts/arrange_linescan_front_workflow.py:81-86 | Sorting loses, doubles and invents nothing |
| `StableSort.SortedIsStable` | scripts/arrange_linescan_front_workflow.py:81-86 | Sorting gives ascending keys and keeps the order of equal ones |
| `BlockLayout.NoColumnIsEmpty` | scripts/arrange_linescan_front_workflow.py:79-92 | No depth is skipped, so the maximum over a column is defined |
| `BlockLayout.BlockIsWellPlaced` | scripts/arrange_linescan_front_workflow.py:78-97 | Every internal edge goes strictly rightwards, no two boxes overlap, the rectangle contains them all, nothing else moves |
| `BlockLayout.LayoutScript.PlaceColumn` | scripts/arrange_linescan_front_workflow.py:87-90 | The inner loop stacks the boxes of a column |
| `BlockLayout.LayoutScript.PlaceDepth` | scripts/arrange_linescan_front_workflow.py:80-92 | One column: members of that depth, sorted by their sources, then the next x and the lowest y |
| `BlockLayout.LayoutScript.PlaceAll` | scripts/arrange_linescan_front_workflow.py:78-92 | The column loop from left to right gives the columns of every depth |
| `BlockLayout.LayoutScript.PlaceGroup` | scripts/arrange_linescan_front_workflow.py:78-97 | All columns and the rectangle around them make the picture above |
| `BlockLayout.LayoutScript.Block` | scripts/arrange_linescan_front_workflow.py:54-104 | Each failure exactly when it occurs and what it leaves, and for a success the layering, the coordinates, the rectangle and the picture above |
| `LayoutShape.BlockIsPictured` | scripts/arrange_linescan_front_workflow.py:78-97 | The finished picture completely: a column per depth with exactly its members, ordered by the mean height of their sources and else as listed, the first box at the top, every next one 90 below the one before, columns 110 right of the widest box before, and the rectangle as tight as the margins allow |
| `LayoutShape.HeightIs` | scripts/arrange_linescan_front_workflow.py:42-52 | A gallery keeps 750 free, a value or image preview 200, any other box nothing |
| `StableSort.PlacesOf` | scripts/arrange_linescan_front_workflow.py:81-86 | Sorted elements with equal keys come in the order they had |
| `DateTimeTemplate.RenderExpression` | backend/nodes/date_time_template.py:101-167 | The run loop accepts exactly the valid expressions, shows every position the digit its place in the run asks for, and otherwise reports the first fault |
| `DateTimeTemplate.EndOfRun` | backend/nodes/date_time_template.py:132-135 | The inner loop finds the end of the run of one marker |
| `DateTimeTemplate.RenderedExpression` | backend/nodes/date_time_template.py:101-167 | The same as a function: when it fails, with what, and every character of the result |
| `DateTimeTemplate.RenderTemplate` | backend/nodes/date_time_template.py:25-98 | The regular-expression loop gives exactly what a two-state brace scanner gives: the same text or the same first failure |
| `DateTimeTemplate.RenderBlock` | backend/nodes/date_time_template.py:62-87 | A block is a context text if its name is known, else an expression, with each failure |
| `DateTimeTemplate.StrayBrace` | backend/nodes/date_time_template.py:53-60 | Where a brace stands outside the matches, the scanner fails as the loop does |
| `DateTimeTemplate.Accepted` | backend/nodes/date_time_template.py:49-98 | Accepted exactly when the braces pair up and every block is a context text or a valid expression, whatever the time |
| `DateTimeTemplate.LengthIs` | backend/nodes/date_time_template.py:53-98 | Without a context the output is the template less two characters a block |
| `DateTimeTemplate.StampsSortByTime` | backend/nodes/date_time_template.py:116-149 | Comparing two full stamps as texts compares their times to the millisecond |
| `DateTimeDigits.AcceptedIs` | backend/nodes/date_time_template.py:15-24 | An expression is accepted exactly when it has a documented letter, nothing but letters and the documented separators, and no run wider than documented |
| `DateTimeDigits.RunShows` | backend/nodes/date_time_template.py:37-44 | Every run of a letter shows, in decimal, the number of its letter modulo a power of ten: a short run shows the last digits |
| `DateTimeDigits.RestStays` | backend/nodes/date_time_template.py:155-163 | Separators show themselves |
| `RenameSaga.RenameBack` | backend/maintenance/development_workflow_reset.py:106-108 | Renaming a subtree to a free sibling and back restores the files exactly |
| `RenameSaga.UndoRestores` | backend/maintenance/development_workflow_reset.py:162-183 | Wherever the staging stops, the reverse compensation restores the exact files, nested paths included |
| `RenameSaga.StagingKeepsTheRest` | backend/maintenance/development_workflow_reset.py:94-103 | Outside the staging paths, exactly the listed paths and what is below them have gone |
| `RenameSaga.DeletedOrPending` | backend/maintenance/development_workflow_reset.py:445-457 | However removals fail, whatever is left below a staging path is below one listed as pending, and nothing else changed |
| `RenameSaga.AllDeleted` | backend/maintenance/development_workflow_reset.py:449-454 | When no removal fails nothing is left below any staging path, and nothing else is removed |
| `RenameSaga.CleanSweep` | backend/maintenance/development_workflow_reset.py:159-185 | When nothing fails, exactly the listed paths and what is below them are gone |
| `RenameSaga.NestedIsReportedPending` | backend/maintenance/development_workflow_reset.py:445-457 | A path listed before its own parent is reported pending although nothing of it is left |
| `RenameSaga.PendingIs` | backend/maintenance/development_workflow_reset.py:162-185 | For every list of paths the pending list is, in order, the staging paths whose removal failed and those inside a directory renamed later |
| `RenameSaga.NothingPending` | backend/maintenance/development_workflow_reset.py:445-457 | The pending list is empty if and only if no removal fails and, among the paths that exist and lie in no earlier one, none is listed before a path it lies in |
| `RenameSaga.SourcesAre` | backend/maintenance/development_workflow_reset.py:94-103 | A staging that goes through renames, in order, exactly the listed paths that exist and lie in no earlier listed one |
| `RenameSaga.DevelopmentWorkflowReset.Compensate` | backend/maintenance/development_workflow_reset.py:178-183 | The reverse loop renames back exactly what is staged and missing |
| `RenameSaga.DevelopmentWorkflowReset.FinalizeStagedPaths` | backend/maintenance/development_workflow_reset.py:445-457 | The removal loop deletes or lists every staging path, in order |
| `RenameSaga.DevelopmentWorkflowReset.Clear` | backend/maintenance/development_workflow_reset.py:91-122 | A failure of any rename or of the commit leaves files and rows exactly as they were; otherwise the rows are wiped and the staged paths cleaned up |
| `SaveLocationMigration.ParametersSettle` | backend/maintenance/workflow_save_location_migration.py:131-169 | A migrated node has nothing left to migrate, and a change is reported exactly when there is one |
| `SaveLocationMigration.VideoSettles` | backend/maintenance/workflow_save_location_migration.py:265-290 | The same for the three video parameters |
| `SaveLocationMigration.SplitSettles` | backend/maintenance/workflow_save_location_migration.py:182-239 | After the split no old name is left, and only the new names were added |
| `SaveLocationMigration.CollapseSettles` | backend/maintenance/workflow_save_location_migration.py:147-169 | The other nodes keep none of the old names, and a change is reported exactly when there is one |
| `SaveLocationMigration.EdgesSettle` | backend/maintenance/workflow_save_location_migration.py:171-178 | Redirected edges pass the first check again and are not redirected again |
| `SaveLocationMigration.MigrationIsIdempotent` | backend/maintenance/workflow_save_location_migration.py:81-179 | A migrated template migrates to itself and counts nothing, and nothing is counted exactly when the template was already migrated |
| `SaveLocationMigration.ScanIs` | backend/maintenance/workflow_save_location_migration.py:54-68 | The scan lists exactly the candidates whose migration differs, each with its migration |
| `SaveLocationMigration.InterruptedRunsConverge` | backend/maintenance/workflow_save_location_migration.py:70-72 | However many writes went through, running again reaches the same fully migrated store |
| `SaveLocationMigration.TemplateInMemory.MigratePayload` | backend/maintenance/workflow_save_location_migration.py:81-179 | The node and edge loops change the template in place to its migration, count its changed nodes, and report the first fault |
| `SaveLocationMigration.TemplateInMemory.RedirectEdges` | backend/maintenance/workflow_save_location_migration.py:171-178 | The edge loop redirects exactly the edges into an old location port |
| `SaveLocationMigration.TemplateStore.MigrateSaveLocations` | backend/maintenance/workflow_save_location_migration.py:47-78 | The first invalid candidate is reported and prevents every write, a dry run makes none, an interrupted run wrote a prefix, a finished one migrated every candidate |
| `SaveLocationValues.SplitIs` | backend/maintenance/workflow_save_location_migration.py:182-262 | What a split node holds: `save_directory` and `file_name` equal the stamped parts of the one old value, `overwrite` as before or true where set, no old name, all else unchanged; and each error exactly when it occurs |
| `SaveLocationValues.VideoIs` | backend/maintenance/workflow_save_location_migration.py:265-290 | What a video node holds: `save_location` is the value of the transport in use, the three old parameters are gone, all else is unchanged |
| `SaveLocationValues.CollapseIs` | backend/maintenance/workflow_save_location_migration.py:147-169 | What any other node holds: `save_location` is the one value of its old names, all else is unchanged; and the error exactly when the values differ |
| `SaveLocationValues.ParametersAre` | backend/maintenance/workflow_save_location_migration.py:81-170 | What a node of each kind holds after the migration |
| `SaveLocationValues.ParametersSucceed` | backend/maintenance/workflow_save_location_migration.py:81-170 | A node can be migrated exactly when each of its steps can |
| `SaveLocationValues.TemplateIs` | backend/maintenance/workflow_save_location_migration.py:81-180 | A migrated template node by node, and that exactly the edges into an old location port are redirected |
| `SaveLocationValues.FailureIs` | backend/maintenance/workflow_save_location_migration.py:81-180 | What is reported is the first thing wrong: the lists, then the edges, then the nodes in order |
| `SaveLocationValues.CountedAre` | backend/maintenance/workflow_save_location_migration.py:81-180 | Counted are the nodes whose parameters changed and those a redirected edge goes to |
| `SaveLocationValues.ScanNotes` | backend/maintenance/workflow_save_location_migration.py:47-78 | A scan of valid candidates notes, in order, those whose migration changes a node, and counts the nodes |
| `SchemaEnrichment.ParameterTitleIs` | backend/nodes/definition_metadata.py:198-213 | A generated title has nothing to strip, except that a name without words is taken as it is |
| `TextTools.WordsAre` | backend/nodes/definition_metadata.py:204-204 | Splitting gives words without separators, none exactly when there are only separators |
| `TextTools.StripIsTrim` | backend/nodes/definition_metadata.py:267-268 | Stripping leaves nothing to strip |
| `SchemaEnrichment.NonEmpty` | backend/nodes/definition_metadata.py:262-268 | A text read as not empty has nothing left to strip |
| `SchemaEnrichment.Describe` | backend/nodes/definition_metadata.py:216-249 | A generated description is never blank and never begins or ends with a blank |
| `SchemaEnrichment.EnrichTells` | backend/nodes/definition_metadata.py:90-138 | After enriching, every property at every depth has a title and a description that is not blank |
| `SchemaEnrichment.EnrichConserves` | backend/nodes/definition_metadata.py:90-148 | Without the titles and descriptions of properties the schema is the same as before |
| `SchemaEnrichment.EnrichRespects` | backend/nodes/definition_metadata.py:99-107 | A description that is not blank is kept letter by letter, a title up to stripping |
| `SchemaEnrichment.EnrichTwice` | backend/nodes/definition_metadata.py:90-138 | Enriching is idempotent on a schema if and only if no property without a title has a name of separators that stripping would change |
| `SchemaEnrichment.TitleCanChangeTwice` | backend/nodes/definition_metadata.py:198-205 | A property whose title changes again in the second pass |
| `SchemaEnrichment.PortTold` | backend/nodes/definition_metadata.py:73-87 | A port ends up with a description |
| `SchemaEnrichment.UiFieldTold` | backend/nodes/definition_metadata.py:170-187 | A form field ends up with a description, its own or its property's |
| `SchemaEnrichment.UiGroupTold` | backend/nodes/definition_metadata.py:190-195 | A form group ends up with a description |
| `SchemaEnrichment.DefinitionIsTold` | backend/nodes/definition_metadata.py:49-70 | A whole definition ends up told everywhere, and what was given stays |
| `SchemaEnrichment.DefinitionTwice` | backend/nodes/definition_metadata.py:49-70 | Enriching a definition is idempotent if and only if its parameter schema is steady |
| `SchemaTexts.TitleKeepsLetters` | backend/nodes/definition_metadata.py:198-213 | A generated title has the letters of its name, in order |
| `SchemaTexts.TitleIsTitled` | backend/nodes/definition_metadata.py:198-213 | The words of a generated title are those of the name in order, acronyms in capitals, the others with a capital first |
| `SchemaTexts.DescribeSays` | backend/nodes/definition_metadata.py:216-249 | A generated description is a sentence of its title and of exactly the clauses that are so: required or optional, type, choices, default, bounds |
| `SchemaTexts.ValuesAreShown` | backend/nodes/definition_metadata.py:232-259 | A value is shown as it prints, or by its first 117 characters and three dots; of a list every value is shown |
| `SchemaTexts.TypesAreNamed` | backend/nodes/definition_metadata.py:223-230 | A list of types names its texts in order and passes over other values |
| `SchemaTexts.EnrichMarks` | backend/nodes/definition_metadata.py:90-148 | At every depth a property has the title given or made from its name, and where it had no description one that says what its schema sets, as required exactly where the schema around it requires it |
| `SchemaTexts.PortSays` | backend/nodes/definition_metadata.py:73-87 | What a port's description says: required or not, direction, name, type, several connections |
| `SchemaTexts.DefinitionSays` | backend/nodes/definition_metadata.py:49-87 | What a whole definition becomes: a form field without a description has exactly its parameter's from the enriched schema, or one of its own name |
| `PoseDataset.Deduplicate` | backend/maintenance/development_benchmark_datasets.py:371-396 | The loop keeps the first candidate of every image that is not blocked, fails exactly on two labels of one image, and unique plus removed is the count |
| `PoseDataset.DeduplicatedIs` | backend/maintenance/development_benchmark_datasets.py:371-396 | What is kept has every unblocked image exactly once |
| `PoseDataset.OrderedIs` | backend/maintenance/development_benchmark_datasets.py:414-427 | Ordering is a permutation |
| `PoseDataset.SlicesApart` | backend/maintenance/development_benchmark_datasets.py:111-114 | Validation and test slices share no image, whatever the bounds, negative ones included |
| `PoseDataset.NoLeak` | backend/maintenance/development_benchmark_datasets.py:63-114 | No image is in two splits or twice in one, no training image is in validation or test, and unique plus removed is the candidate count |
| `PoseDataset.AllSamplesAreUsed` | backend/maintenance/development_benchmark_datasets.py:88-114 | With all samples asked for, nothing is left over and neither validation nor test is empty |
| `PoseDataset.ChooseSplits` | backend/maintenance/development_benchmark_datasets.py:61-114 | The choice step by step, with the first error |
| `PoseDataset.ClippedIs` | backend/maintenance/development_benchmark_datasets.py:194-208 | Clipping gives the intersection with the unit square and leaves a box inside alone |
| `PoseDataset.LineSettles` | backend/maintenance/development_benchmark_datasets.py:181-234 | A normalized line has its box inside the unit square and is a fixed point exactly for three-valued keypoints |
| `PoseDataset.TextSettles` | backend/maintenance/development_benchmark_datasets.py:169-237 | So does a whole label file: the second pass repairs and hides nothing |
| `PoseDataset.NormalizePoints` | backend/maintenance/development_benchmark_datasets.py:214-230 | The keypoint loop: hidden and outside points become zeros, visible ones are counted and their visibility capped |
| `PoseDataset.NormalizeOne` | backend/maintenance/development_benchmark_datasets.py:181-234 | One line: rejected, or its clipped box and its normalized keypoints |
| `PoseDataset.NormalizeLabel` | backend/maintenance/development_benchmark_datasets.py:169-237 | The line loop: one rejected line rejects the file, repairs and hidden points add up |
| `PoseDataset.WriteSplit` | backend/maintenance/development_benchmark_datasets.py:125-144 | Every candidate of a split is written or counted as rejected |
| `PoseDataset.Prepare` | backend/maintenance/development_benchmark_datasets.py:43-166 | The whole preparation: the first error, or counts that add up with no split empty |
| `PoseLaws.ChoiceFails` | backend/maintenance/development_benchmark_datasets.py:61-114 | Exactly when the splits can be chosen, told from the sources, and otherwise what is wrong first |
| `PoseLaws.SplitSizes` | backend/maintenance/development_benchmark_datasets.py:74-114 | The splits have the sizes asked for; with all samples, test has the floor of the ratio of the pool, at least one and at most all but one, and validation the rest |
| `PoseLaws.SplitsAreRanked` | backend/maintenance/development_benchmark_datasets.py:74-114 | Every split is in rank order, its images are the first by rank, and each is represented by its first candidate |
| `PoseLaws.LineIs` | backend/maintenance/development_benchmark_datasets.py:185-236 | A line is accepted exactly when it has the right numbers, a box that meets the image and a visible keypoint inside; its box becomes the part inside, every keypoint stays or becomes zeros, a repair is reported exactly when the box moved, and the hidden points are counted |
| `PoseLaws.TextIs` | backend/maintenance/development_benchmark_datasets.py:169-237 | A file is accepted exactly when it has lines and each is; each is written in its place, repairs and hidden points add up |
| `PoseLaws.SplitIsReported` | backend/maintenance/development_benchmark_datasets.py:117-152 | A split writes exactly its usable candidates and counts the repaired, the rejected and the hidden points |

## Left out

- Locks, threads, signals, fsync and process inspection: operations are mutually exclusive, and a rename or an atomic
  write is one effect.
- The contents of archives: ZIP decoding, path checks and size limits of an uploaded package; a source is a tree of
  files without symbolic links, in the order the digest visits them.
- SHA-256, UTF-8, JSON, `repr`, path splitting, version ranges and hash orderings are arbitrary functions.
- Whether a staged package validates, its dependencies are met and its runtime imports is one input of an operation;
  so is what the loader's reload and the caller's callback answer after a switch. Enabling in `NodePackLoader` computes
  the reload instead.
- NodePackManager.LifecycleManager.RollbackActivation: a step that raises with the process alive is reported like a
  death there, which leaves the same disk; the loader's reload inside the compensation is not modelled.
- NodePackManager.LifecycleManager.RecoverUnfinishedTransaction: a damaged journal and the loader's reload after
  the recovery are not modelled.
- Temporary directories inside the version store and the staging area, which no later step reads.
- Two transactions drawing the same random id: the model refuses the second.
- A damaged `state.json`, YAML manifests of managed packs, the audit log, timestamps, actor names, and the order of
  `list_versions`.
- Version ranges of other packs' dependencies after an upgrade or rollback: the code does not look at them.
- InferenceRuntime.RunsAreSound: disposing the database engine does not fail, and a start body does not start or
  stop the same container again.
- The backend service's own container and its list of start steps, which only use the automaton.
- Log entries, messages and details of errors, status timestamps, and the concurrency policy inferred for a node
  definition, which is part of an arbitrary enrichment.
- NodeCatalog.NodeCatalogRegistry.GetCatalogSnapshot: that a cached snapshot goes stale when the loader changes
  without an invalidation is left to the caller, as in the code.
- BlockLayout.BlockIsWellPlaced: the measured sizes are not negative.
- The fixed group lists of the layout script, its hand-placed grids and notes, and members that are not nodes.
- Rounding: coordinates, ratios and label values are real numbers, and printing a label is not modelled.
- NodePackTraces.IntruderTakesDirectory: the two pack ids do not share a folder of the version store.
- RenameSaga.PendingIs: no part of a listed path ends with the mark, which the code draws at random for each command.
- RenameSaga.DevelopmentWorkflowReset.Clear: renames of the compensation succeed, the paths are given, and
  recreating the empty workflow roots afterwards is not modelled.
- The order of keys in a JSON object, and key order in migrated parameters.
- SaveLocationMigration.TemplateStore.MigrateSaveLocations: listing the candidate files is not modelled; one write
  is atomic.
- SchemaEnrichment.ParameterTitleIs: upper and lower case are those of the ASCII letters.
- A template that is not a string, and the module prefixes the loader keeps for importing packs.
- Previews, confirmation flags and the refusal while resources are active, which come before the staging.
- PoseDataset.NormalizeLabel: fewer than two values per keypoint, where the code would read past the line.
- Listing and hashing the source images, with the errors of missing directories.
- Copying images, writing YAML and reports, and the synthetic OBB dataset.
- HTTP services, the graph executor, inference, and every other part of the backend.
