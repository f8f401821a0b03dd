# JaxBucket: a verified model of its core

JaxBucket is a peer-to-peer versioned filesystem. A *bucket* is a chain of signed manifests; each manifest points to an
encrypted tree of directories, to a list of pinned blobs, to the operations made since the version before it, and to that
version. Peers keep a log of the versions they know, tell each other about their heads, and follow each other's chains.
This project models those parts in Dafny and proves what they promise over every input, every run and every reachable
state. `dafny verify dfyconfig.toml` checks all of it.

The parts, with the files that hold them:

- **Operation log and conflict resolvers**: `PathOps`, `Conflicts`, `MergeLaws`, `Decisions`, `ConflictFiles`, `Replication`,
  `Reloads`, `MountLogs`, and the object that is updated in place, `PathOpLog`.
- **Copy-on-write tree and mounts**: `Trees`, `TreeUpdates`, `Mounts`, `Moves`, `MountRuns`, `SaveLoad`, `TreeLog`,
  `Replicas`, `PeerRuns`, and the objects `BlobTrees`, `Mount`, `Listings`, `Peer`.
- **Bucket log**: `BucketLog`, and the object `MemoryBucketLog`.
- **Version chains, sync and ping**: `Chains`, `Sync`, `SyncRuns`, `Ping`, the job as it runs, `SyncJobs`; `Histories`,
  which shows that what mounts write is what peers can follow; and concrete histories in `Forks` and `Refusals`.
- **Transfer**: `HashLists` (pin lists as bytes) and `Chunks` (blobs in leaves of 1024 bytes).

How the code is rendered:

- The blob store is content addressed. A hash is an injective constructor applied to the blob it names, and a store is the
  set of hashes whose blobs are present; a blob can be read only if its hash is in the store. Encryption, key wrapping and
  signatures are constructors that only the matching key, recipient or signer opens.
- Whatever the code draws at random is a parameter: `own` is the secret of one new blob, `spine` the secrets of the
  directories rewritten on the way to the root. The theorems hold for every choice, except where one says that a secret
  is new.
- Links are ordered by an unknown numbering `rank`. It is required to be injective only where two heads must be equal.
- What can be downloaded in a sync job is a set of hashes, `available`; a blob outside it fails to download. Pin downloads
  read from a set `sources` in the same way.
- Errors are values. A failed operation still returns the state and the store it leaves behind.
- Each object whose methods update fields is a class, and every method is proved against a step function on values. The
  theorems over runs are about those step functions.

Where the code does not do what its documentation says, or what one might expect, the model follows the code:

- A sync job appends only the oldest missing version (`peer/sync/sync_bucket.rs:369`), although its comment speaks of
  appending each; catching up takes as many jobs as versions are missing (`CatchesUp`).
- The newest version is also checked against the shares of the common ancestor, so a job progresses exactly when that
  ancestor already lists the author as an owner (`JobProgressExactlyWhen`); `NewOwnersVersionIsNotFollowed` gives an
  instance where it never does, and `CatchesUp` says how far a peer comes.
- A failed `mv` can lose its source. `FailedMoveIsCleanUnlessBlocked` says exactly when, `MoveBelowFileLosesSource` gives
  an instance.
- Removing or overwriting a directory leaves the adds of its files as winning operations. `TreeAndLogAgree` and
  `EndAgreesExactlyWhen` say exactly when tree and log agree throughout a run and at its end, `RemovedFolderLeavesAdd`
  gives an instance.
- A rejected append for an unknown bucket leaves an empty bucket behind, which blocks every later sync of it.
  `RejectedAppendHarmlessExactlyWhen` says exactly when a rejected append does no harm, `CrookedGenesisBlocksBucket` gives
  an instance.
- Saving does not ask whether the writer is an owner, so a version can be saved that no peer accepts. `AuthoredExactlyWhen`
  says exactly when that does not happen, `MirrorsVersionIsRefused` gives an instance.
- Loading a version takes the clock from its operations and opens a further mount beside those that are open, so ids can
  be reused in two ways. `UniqueExactlyWhen` says exactly when they are not; `LoadReusesId` and `TwoMountsShareId` give an
  instance of each.
- Peers on different versions at one height are told that they are in sync. `PeersConvergeExactlyWhen` says exactly when
  two peers come to report the same head, `ForkAtOneHeightStays` and `LowerForkComesOver` give an instance each way.

## Model

| member | source | states |
|---|---|---|
| `PathOps.MergeIsUnion` | crates/common/src/mount/path_ops.rs:158-171 | the ascending-id merge loop leaves the union of both maps, the local operation winning a shared id; the clock is the old one or one more than the greatest new timestamp, whichever is greater |
| `PathOps.MergeSize` | crates/common/src/mount/path_ops.rs:158-171 | a merge grows the log by the number of incoming ids that were not held |
| `PathOps.LessIsNumeric` | crates/common/src/mount/path_ops.rs:58-65 | ids are ordered as one number whose high part is the timestamp and whose low part is the peer |
| `PathOps.RebuiltIs` | crates/common/src/mount/path_ops.rs:115-122 | a rebuilt clock is the greatest timestamp of the log, or 0 |
| `PathOps.ResolvesExactly` | crates/common/src/mount/path_ops.rs:334-354 | a path is in the resolved state exactly when the operation at it that none at it exceeds is no removal, and its value is that operation |
| `PathOps.WinnerIs` | crates/common/src/mount/path_ops.rs:313-328 | an operation that no other operation at its path exceeds is the one its path resolves to |
| `PathOps.SameWinnersSameState` | crates/common/src/mount/path_ops.rs:334-354 | logs with the same winner at every path have the same resolved state |
| `Replication.SafeNext` | crates/common/src/mount/path_ops.rs:128-171 | a step of any mount (record, merge of a live or a saved log, save, load, close) keeps a safe state safe if and only if it is no load, or a load of a version whose clock has reached everything issued under the key, while no open mount holds that key |
| `Replication.RecordsFreshId` | crates/common/src/mount/path_ops.rs:128-153 | in a safe state the id a mount records next has never been issued |
| `Replication.IdsAreUnique` | crates/common/src/mount/path_ops.rs:128-171 | over every run of any number of mounts and peers whose loads are guarded in that way, two logs held by any mounts at any two times, live or saved, agree on every id they share |
| `Replication.SameIdsSameState` | crates/common/src/mount/path_ops.rs:334-374 | replicas that hold the same ids, at whatever times, have equal operations and equal resolved state |
| `Replication.MergeAlgebra` | crates/common/src/mount/path_ops.rs:155-171 | merge is associative and idempotent, and commutative on logs that agree |
| `Replication.UniqueExactlyWhen` | crates/common/src/mount/mount_inner.rs:278-340 | after any run in which ids are unique, whatever was opened beside what, every continuation by records of the open mounts keeps them unique if and only if no two open mounts hold one key and the clock of each has reached the last timestamp issued under its key |
| `MountLogs.MountsRunAsReplicas` | crates/common/src/mount/mount_inner.rs:127-804 | every run of mounts is, bucket by bucket, a run of these replicated logs, with the logs of the open mounts and of the stored versions |
| `Reloads.LoadReusesId` | crates/common/src/mount/mount_inner.rs:318-325 | a run: add a file, save, save again, load, add another file; both files are recorded under the first id of the peer |
| `Reloads.TwoMountsShareId` | crates/common/src/mount/mount_inner.rs:278-340 | a run: add a file, save, load the version with the same key beside the open mount, add a file in each; both are recorded under one id although the clocks are up to date |
| `MergeLaws.HeldStays` | crates/common/src/mount/path_ops.rs:192-302 | at every point of a resolver merge the local operations are unchanged, only incoming ids are new, and the clock is that of the plain merge |
| `MergeLaws.ReportAddsUp` | crates/common/src/mount/path_ops.rs:192-302 | at every point the size has grown by `operations_added`, and every new incoming id is either added or reported as dropped, and either met no conflict or is one of the conflicts reported |
| `MergeLaws.AnyResolver` | crates/common/src/mount/path_ops.rs:192-302 | for every resolver: local operations unchanged, size grows by `operations_added`, new incoming ids are the conflict-free additions plus `total_conflicts`, and the next local id exceeds every id of both logs, dropped ones included |
| `MergeLaws.ForkIsPlainMerge` | crates/common/src/mount/conflict/fork_on_conflict.rs:26-28 | keeping both sides of every conflict equals the plain merge, clock included, and leaves every conflict unresolved |
| `MergeLaws.LastWriteLosesNothingVisible` | crates/common/src/mount/conflict/last_write_wins.rs:26-32 | the state resolved after a last-write-wins merge equals the state resolved after the plain merge, for all logs |
| `MergeLaws.MergeLogsOrderFree` | crates/common/src/mount/path_ops.rs:423-443 | logs that agree on shared ids resolve to one state in whatever order, and however often, they are listed |
| `MergeLaws.MergeLogsForks` | crates/common/src/mount/path_ops.rs:423-443 | keeping both sides, merging many logs gives all their operations, the earliest log winning a shared id |
| `MergeLaws.ReportsOfAllLogs` | crates/common/src/mount/path_ops.rs:423-443 | there is one report for each log after the first, and they account for every operation added |
| `MergeLaws.RemergeAddsNothing` | crates/common/src/mount/path_ops.rs:192-302 | merging the same log a second time changes neither operations nor clock, under last-write-wins, base-wins and fork |
| `MergeLaws.BaseWinsAddsNoConflict` | crates/common/src/mount/conflict/base_wins.rs:24-26 | every pair that conflicts after a base-wins merge is a pair of unchanged local operations that conflicted before |
| `Decisions.ConflictsByType` | crates/common/src/mount/conflict/mod.rs:60-84 | different operations at one path conflict unless both only create and one of them makes a directory |
| `Decisions.EveryDecisionIsCarriedOut` | crates/common/src/mount/path_ops.rs:224-299 | for any resolver, an incoming operation that was not held is stored as it is if nothing local or earlier clashes with it, by path and operation types; otherwise the decision on the clash of lowest id is carried out: dropped, stored, or stored under another path |
| `Decisions.ReportIsExact` | crates/common/src/mount/path_ops.rs:244-299 | the report lists exactly the clashes of the new operations in ascending order, with their real sides and decisions, as unresolved exactly if both sides were kept |
| `Decisions.BaseWinsDrops` | crates/common/src/mount/conflict/base_wins.rs:24-26 | an incoming operation is dropped exactly when some local or earlier one at its path removes or moves, or it does itself, or both add |
| `Decisions.LastWriteDrops` | crates/common/src/mount/conflict/last_write_wins.rs:26-32 | an incoming operation is dropped exactly when it clashes, and only with newer ones |
| `Decisions.ConflictFileStores` | crates/common/src/mount/conflict/conflict_file.rs:61-90 | for any logs: an incoming operation goes to its conflict path exactly when its lowest clash is between two adds; otherwise it is stored exactly when it does not clash or clashes with an older one |
| `Decisions.ConflictFileLosesNothingVisible` | crates/common/src/mount/conflict/conflict_file.rs:80-87 | where no adds compete for a path, the state resolved after a conflict-file merge equals that after the plain merge |
| `ConflictFiles.KeepsEveryEdit` | crates/common/src/mount/conflict/conflict_file.rs:49-90 | for logs of adds the merged ids are the union, local operations are unchanged, and each incoming add keeps its content; it is renamed exactly when its path is occupied in the two logs: by a local operation, by an earlier incoming one of that path, or by an earlier one that is itself renamed to it |
| `ConflictFiles.LocalWinnerSurvives` | crates/common/src/mount/path_ops.rs:280-290 | the local winner of a path survives if and only if no newer incoming add whose conflict path it is comes from an occupied path |
| `ConflictFiles.RenameDisplacesLocal` | crates/common/src/mount/path_ops.rs:280-290 | an input where the local winner loses: the renamed add lands on a local file that already has that conflict name |
| `ConflictFiles.PlainNamesKeepLocal` | crates/common/src/mount/conflict/conflict_file.rs:49-90 | a path whose name has no '@' always keeps its local winner |
| `ConflictFiles.ConflictPathInjective` | crates/common/src/mount/conflict/conflict_file.rs:49-58 | when versions contain no '@', two conflict paths are equal exactly when path and version are, a path without a file name counting as "file" |
| `ConflictFiles.RenamesStayApart` | crates/common/src/mount/conflict/conflict_file.rs:61-90 | renamed operations land on one path exactly when they came from one path with one version |
| `ConflictFiles.VersionIs` | crates/common/src/mount/conflict/conflict_file.rs:66-76 | a version is the start of the content hash, of the length asked for if the hash is that long, or the timestamp in decimal |
| `PathOpLogs.PathOpLog.RebuildClock` | crates/common/src/mount/path_ops.rs:115-122 | the loop sets the clock to the greatest timestamp, or 0 |
| `PathOpLogs.PathOpLog.RecordOperation` | crates/common/src/mount/path_ops.rs:128-153 | stores one operation under the next id and ticks the clock |
| `PathOpLogs.PathOpLog.MergeLog` | crates/common/src/mount/path_ops.rs:158-171 | the object ends as the plain merge of the two logs and the count returned is the number of new ids |
| `PathOpLogs.PathOpLog.MergeWithResolver` | crates/common/src/mount/path_ops.rs:192-302 | the object and the report end as the resolver merge that the laws above are about |
| `PathOpLogs.PathOpLog.ClearPreservingClock` | crates/common/src/mount/path_ops.rs:371-374 | empties the log and keeps the clock |
| `PathOpLogs.PathOpLog.ResolveState` | crates/common/src/mount/path_ops.rs:334-354 | over the operations of the object: a path is in the answer exactly when its newest operation is no removal, with that operation as its value |
| `PathOpLogs.GroupByPath` | crates/common/src/mount/path_ops.rs:336-343 | every operation is in the group of its path, every group holds only operations of its path, in ascending order of ids |
| `PathOpLogs.Newest` | crates/common/src/mount/path_ops.rs:345-352 | the operation with the greatest id of a group |
| `PathOpLogs.MergeAllLogs` | crates/common/src/mount/path_ops.rs:423-443 | a new log equal to merging all logs into the first, with one report for each merge |
| `BucketLog.AppendHeads` | crates/common/src/bucket_log/memory.rs:146-156 | an accepted append adds one link at one height of one bucket, raises the stored height only if it must, sets the name, and changes no other answer of `heads` or `height` |
| `BucketLog.AppendIndex` | crates/common/src/bucket_log/memory.rs:158-172 | and changes `has` and the published flag of that link only |
| `BucketLog.RejectedAppendIsSilent` | crates/common/src/bucket_log/memory.rs:98-144 | a rejected append changes no answer of `heads`, `has`, `height` or the published flags; it only makes the bucket exist |
| `BucketLog.ValidAfterAnyAppends` | crates/common/src/bucket_log/memory.rs:81-206 | after any appends, accepted or not, `has` is the inverse of `heads`, nothing is listed twice, the stored height is the greatest occupied one and every height below is occupied |
| `BucketLog.MaxLink` | crates/common/src/bucket_log/provider.rs:110-114 | the head chosen among forks is a listed link that none of them exceeds |
| `BucketLog.HeadNeverDecreases` | crates/common/src/bucket_log/provider.rs:103-117 | over any appends the pair of height and head link never goes back |
| `BucketLog.HeadIs` | crates/common/src/bucket_log/provider.rs:103-117 | the head at any height asked for, or at the top, is the greatest link there, and there is none exactly when nothing is there |
| `BucketLog.SameEntriesSameHead` | crates/common/src/bucket_log/provider.rs:103-117 | logs with the same entries report the same head |
| `BucketLog.ArrivalOrderIsIrrelevant` | crates/common/src/bucket_log/provider.rs:103-117 | logs that accepted the same appends in any two orders report the same head |
| `MemoryBucketLogs.MemoryBucketLog.AppendEntry` | crates/common/src/bucket_log/memory.rs:81-175 | the five maps end as the append on values says; the answer is a conflict exactly if the link is at the height already, and an acceptance exactly if it is not and its predecessor is one height below or it is a genesis at 0 |
| `MemoryBucketLogs.MemoryBucketLog.Check` | crates/common/src/bucket_log/memory.rs:103-144 | duplicate links conflict; the predecessor must be one height below; only height 0 has none |
| `MemoryBucketLogs.MemoryBucketLog.LatestPublished` | crates/common/src/bucket_log/memory.rs:219-253 | in whatever order the heights are visited, the answer is a flagged link of the greatest height that has one, with no flagged link before it in the list there, and none exactly when nothing is flagged |
| `Trees.OpensExactlyWhen` | crates/common/src/mount/mount_inner.rs:1103-1152 | a directory opens exactly when its blob is here and holds it under the secret, and each obstacle has its error |
| `Trees.WalkFinds` | crates/common/src/mount/mount_inner.rs:944-961 | in an intact tree the walk succeeds exactly on folders, finds what is below them, and fails with a codec error exactly if it meets a file |
| `Trees.LookupLast` | crates/common/src/mount/mount_inner.rs:916-942 | `get` finds exactly what the tree has at the path, with the error otherwise |
| `TreeUpdates.LinkRefinesUpdate` | crates/common/src/mount/mount_inner.rs:963-1016 | path copying refines a map update: it succeeds exactly when no directory on the way is a file; the link is at the path, its subtree below, folders above, everything else as before |
| `TreeUpdates.RebuildLooksUp` | crates/common/src/mount/mount_inner.rs:999-1014 | what every single path names after the spine is rewritten, the new directories being among the hashes reported |
| `TreeUpdates.LinkKeepsIntact` | crates/common/src/mount/mount_inner.rs:963-1016 | the new tree can be read in full from the store with the new directories |
| `TreeUpdates.LinkKeepsPinned` | crates/common/src/mount/mount_inner.rs:430-446 | pins that cover the old tree, the link and the created hashes cover the new tree |
| `TreeUpdates.UnlinkRefinesRemoval` | crates/common/src/mount/mount_inner.rs:451-531 | removal succeeds exactly when the path names something, and then exactly what is at or below the path is gone |
| `TreeUpdates.UnlinkKeepsPinned` | crates/common/src/mount/mount_inner.rs:451-531 | pins stay complete under removal |
| `BlobTrees.GetNodeAtPath` | crates/common/src/mount/mount_inner.rs:944-961 | the loop down a path computes the walk |
| `BlobTrees.SetNodeLinkAtPath` | crates/common/src/mount/mount_inner.rs:963-1016 | the loop down and the loop up over the visited stack compute the rebuilt root, write exactly the reported hashes and write nothing on an error |
| `BlobTrees.WriteSpine` | crates/common/src/mount/mount_inner.rs:999-1014 | the loop up writes one directory for each visited one and links them into the rebuilt spine |
| `Moves.MoveConserves` | crates/common/src/mount/mount_inner.rs:640-804 | an allowed move succeeds exactly when the destination's way is not blocked by a file; then the destination shows the old subtree, the source is absent, every other path is as before up to new folders above the destination, and one operation is recorded |
| `Moves.RefusedMoveIsNoOp` | crates/common/src/mount/mount_inner.rs:640-692 | a move into itself, from nowhere or onto something fails with its own error and changes neither mount nor store |
| `Moves.FailedMoveIsCleanUnlessBlocked` | crates/common/src/mount/mount_inner.rs:694-777 | a failed move changes the tree if and only if it was allowed and the way to the destination is blocked |
| `Moves.MoveBelowFileLosesSource` | crates/common/src/mount/mount_inner.rs:694-777 | in a directory of two files, moving one to a path below the other fails and the moved file is gone |
| `MountObjects.Mount.Add` | crates/common/src/mount/mount_inner.rs:381-449 | tree, pins, operations and store end as the add step says, also when it fails |
| `MountObjects.Mount.TakeOut` | crates/common/src/mount/mount_inner.rs:694-755 | tree, pins and store end as unlinking says, also when it fails |
| `MountObjects.Mount.Rm` | crates/common/src/mount/mount_inner.rs:451-531 | tree, pins, operations and store end as the remove step says, also when it fails |
| `MountObjects.Mount.MkdirAt` | crates/common/src/mount/mount_inner.rs:533-620 | tree, pins, operations and store end as the mkdir step says, also when it fails |
| `MountObjects.Mount.Mv` | crates/common/src/mount/mount_inner.rs:640-804 | tree, pins, operations and store end as the move step says, also when its second half fails |
| `MountObjects.Mount.SaveVersion` | crates/common/src/mount/mount_inner.rs:127-227 | mount and store end as the save step says: one height up, the tree and the mount's own pins unchanged, the operations emptied and the clock kept |
| `MountObjects.Mount.InviteOwner` | crates/common/src/mount/mount_inner.rs:352-361 | the mount ends as the membership step says |
| `MountObjects.Mount.InviteMirror` | crates/common/src/mount/mount_inner.rs:363-366 | the mount ends as the membership step says |
| `MountObjects.LoadMount` | crates/common/src/mount/mount_inner.rs:278-340 | opens the mount the load step gives, or fails with its error |
| `Listings.LsDeep` | crates/common/src/mount/mount_inner.rs:840-875 | lists exactly the paths below a directory that name something, each with its link, and fails only with the error of a directory below that does not open |
| `Listings.LsDeepAt` | crates/common/src/mount/mount_inner.rs:835-838 | from a base path, lists exactly what is below it by relative paths if it is a folder, and has the error that fits otherwise |
| `MountRuns.NextKeepsWorld` | crates/common/src/mount/mount_inner.rs:127-804 | init, load, add, rm, mkdir, mv, save and membership changes, failed or not, keep every mount intact and pinned and every stored version complete |
| `MountRuns.SaveWritesVersion` | crates/common/src/mount/mount_inner.rs:154-177 | the pin list of a saved version covers its root, everything below, its operations and the version before |
| `MountRuns.PinsCoverEveryRun` | crates/common/src/mount/mount_inner.rs:127-804 | over every run of any number of mounts, every open mount is intact and pinned and the pin list of every version ever stored covers everything reachable from it |
| `MountRuns.OldRootsKeepReading` | crates/common/src/mount/mount_inner.rs:963-1016 | every root that was readable at some moment reads the same bytes at every path after any further actions |
| `MountRuns.CatIsLookup` | crates/common/src/mount/mount_inner.rs:878-914 | reading a file of an intact tree gives the bytes of the link found at the path, or the error that fits |
| `MountRuns.ReplicaReadsTheSame` | crates/common/src/mount/mount_inner.rs:278-340 | a replica that holds a version's manifest, pin list and pinned blobs loads it for every key, and reads every path, exactly as the writers' store does |
| `Replicas.DownloadPins` | crates/common/src/peer/sync/download_pins.rs:22-31 | succeeds exactly when the bytes are a list and all it names can be had; if they are the pin list of a version that any run wrote, it succeeds when the sources hold what the writers hold, and whenever it succeeds the replica loads and reads the version as the writers do |
| `SaveLoad.RoundTripByRole` | crates/common/src/mount/mount_inner.rs:127-340 | after a save every owner loads the same tree, operations and pins one height up, a mirror does exactly when the version was published, anyone else is refused |
| `SaveLoad.LoadExactlyWhen` | crates/common/src/mount/mount_inner.rs:278-340 | loading succeeds exactly when the version is here, the key opens it by its role, and its pin list, root and operations are here and open; it then gives what they say |
| `SaveLoad.OnlyOwnersGetTheSecret` | crates/common/src/mount/mount_inner.rs:179-206 | a save wraps its secret for every owner and for nobody else, exposes it exactly if it publishes, and keeps members, roles, mirrors' shares, id and name |
| `SaveLoad.GenesisLoads` | crates/common/src/mount/mount_inner.rs:229-276 | the creator of a bucket loads it as it is, and nobody else can |
| `SaveLoad.VerifiesExactlyWhenSigned` | crates/common/src/mount/manifest.rs:400-440 | a signature verifies exactly when signing with the author's key gives the manifest as it is |
| `SaveLoad.SignatureBinds` | crates/common/src/mount/manifest.rs:419-440 | two manifests with one verifying signature are the same |
| `SaveLoad.NewMemberLoadsNextVersion` | crates/common/src/mount/mount_inner.rs:352-366 | a new owner loads the next saved version, a new mirror exactly if it is published, and everyone else gets what they would have got without the new member |
| `SaveLoad.SavedMountIsAppended` | crates/common/src/peer/peer_inner.rs:379-412 | saving a mount whose version is logged passes append validation exactly when the new link is not already logged, which a root sealed under a new secret guarantees |
| `SaveLoad.SavedMountIsLogged` | crates/common/src/peer/peer_inner.rs:379-412 | after the append the mount stands on a logged version again |
| `PeerObjects.SaveMount` | crates/common/src/peer/peer_inner.rs:379-412 | mount, store and log end as save followed by append, and success is the validation of the append |
| `PeerRuns.EveryLogIsProper` | crates/common/src/bucket_log/memory.rs:81-175 | after any steps of a peer, its own and sync jobs, accepted or not, its index matches its entries and every logged version is at the height its manifest says, on top of its predecessor |
| `PeerRuns.StepKeepsHost` | crates/daemon/src/http_server/api/v0/bucket/create.rs:51-86 | creating a bucket with its genesis append, opening a logged version, editing, saving and following keep the log equal to the stored and the synced versions, and what the peer itself appends is accepted |
| `PeerRuns.LogHoldsSavedVersions` | crates/common/src/peer/peer_inner.rs:379-412 | over every run of a peer with any number of buckets and mounts and with sync jobs in between, everything it appends itself is accepted and the log lists exactly the versions it ever stored and those its jobs appended, each under its bucket at its height |
| `TreeLog.RecordedWins` | crates/common/src/mount/path_ops.rs:128-153 | a recorded operation wins its path and changes the winner of no other |
| `TreeLog.AddExactlyWhen` | crates/common/src/mount/mount_inner.rs:381-449 | adding succeeds exactly when no directory on the way is a file, each failure has its error, and the file then reads back as the bytes added |
| `TreeLog.MkdirExactlyWhen` | crates/common/src/mount/mount_inner.rs:533-620 | a directory is made exactly when nothing is at the path and no directory on the way is a file, each failure has its error |
| `TreeLog.AddShows` | crates/common/src/mount/mount_inner.rs:381-449 | the file is at its path, nothing below it, folders above, the rest unchanged, and the add is the winning operation of that path only |
| `TreeLog.RemoveShows` | crates/common/src/mount/mount_inner.rs:451-531 | exactly what is at or below the path is gone, and the removal wins that path only, marked as one of a directory exactly if there was one |
| `TreeLog.MkdirShows` | crates/common/src/mount/mount_inner.rs:533-620 | nothing was at the path, it and everything above are folders, the rest unchanged, and the mkdir wins that path only |
| `TreeLog.EveryFileHasItsAdd` | crates/common/src/mount/mount_inner.rs:381-620 | over every run of add, rm and mkdir, every file's winning operation is an add that carries its link |
| `TreeLog.FilesByHistory` | crates/common/src/mount/mount_inner.rs:381-620 | after every run of edits a path is a file exactly when its last edit added it and no directory above it was removed or overwritten since |
| `TreeLog.ResolvedByHistory` | crates/common/src/mount/path_ops.rs:334-354 | after every run of edits of a new mount, a path is in the resolved state exactly when its last successful edit is no removal, and every file of the tree is in it as an add of that file |
| `TreeLog.AgreesExactlyWhen` | crates/common/src/mount/mount_inner.rs:381-620 | the paths won by an add are files throughout a run if and only if no add or removal is aimed at a path with a file below it, the root aside |
| `TreeLog.EndAgreesExactlyWhen` | crates/common/src/mount/path_ops.rs:313-354 | they are files at the end of a run if and only if no path whose last edit is an add had a directory above it removed or overwritten since |
| `TreeLog.TreeAndLogAgree` | crates/common/src/mount/path_ops.rs:313-354 | for every run of a newly initialised mount: every file has its add as winning operation, and the condition for agreement throughout |
| `TreeLog.RemovedFolderLeavesAdd` | crates/common/src/mount/mount_inner.rs:451-531 | add a file, remove its directory: the add still wins and the file is gone |
| `Chains.FindCommonAncestor` | crates/common/src/mount/mount_inner.rs:1387-1424 | the two loops compute the search, errors included, and terminate |
| `Chains.AncestorSearchIsExact` | crates/common/src/mount/mount_inner.rs:1387-1424 | on readable chains the result is on both and has every common link in its history, is none exactly when the chains are disjoint, and does not depend on the order of the arguments |
| `Chains.AncestorSearchSucceedsWhen` | crates/common/src/mount/mount_inner.rs:1387-1424 | the search succeeds exactly when the first chain can be read in full and the second down to where it meets the first |
| `Chains.NewestCommonIsHighest` | crates/common/src/mount/mount_inner.rs:1387-1424 | where heights drop by one per link, the result is higher than every other common link |
| `Histories.WrittenHistoryIsWhole` | crates/common/src/mount/mount_inner.rs:127-276 | in every run the whole history of every stored version is stored, and its heights count up from genesis |
| `Histories.AncestorOfWrittenVersions` | crates/common/src/mount/mount_inner.rs:1387-1424 | for any two versions written in any run the ancestor search succeeds, is symmetric, and finds the highest link both have or none exactly when they share nothing |
| `Histories.AuthoredExactlyWhen` | crates/common/src/peer/sync/sync_bucket.rs:428-475 | all versions a run stores pass the author check if and only if every save was by an owner in the version it follows |
| `Refusals.MirrorsVersionIsRefused` | crates/common/src/mount/mount_inner.rs:127-227 | a run: a mirror loads a published version and saves it; the author check of that version fails and no sequence of jobs ever logs it |
| `Histories.NewPeerFollows` | crates/common/src/peer/sync/sync_bucket.rs:52-157 | a peer with an empty log has a version that any run wrote logged after n jobs if and only if n exceeds its height, it lists the peer, every version of its history is properly authored, and its author is an owner in each of them |
| `Sync.AncestorIsNewest` | crates/common/src/peer/sync/sync_bucket.rs:272-353 | whenever the search succeeds it has found the newest logged version of the target's history |
| `Sync.SegmentIsContiguous` | crates/common/src/peer/sync/sync_bucket.rs:188-232 | the versions above the newest logged one are a contiguous end of the chain, none of them logged, the first directly on the logged one |
| `Sync.DownloadIsSegment` | crates/common/src/peer/sync/sync_bucket.rs:188-232 | whenever the download succeeds it has exactly those versions, oldest first |
| `Sync.CandidatesAreSegment` | crates/common/src/peer/sync/sync_bucket.rs:52-157 | a job that reaches its last check has the newest logged version and exactly the versions above it |
| `SyncJobs.FindAncestorOf` | crates/common/src/peer/sync/sync_bucket.rs:272-353 | the loop computes the search over the log object |
| `SyncJobs.DownloadChainOf` | crates/common/src/peer/sync/sync_bucket.rs:188-232 | the loop with its final reversal computes the download |
| `SyncJobs.CheckAuthorsOf` | crates/common/src/peer/sync/sync_bucket.rs:236-250 | the loop checks each version against the one before it |
| `SyncJobs.ExecuteJob` | crates/common/src/peer/sync/sync_bucket.rs:52-157 | the loops and the append compute the job whose result and log the theorems on jobs describe exactly |
| `SyncRuns.JobAppendsOne` | crates/common/src/peer/sync/sync_bucket.rs:358-410 | what a job appends is the oldest missing version, properly authored, directly on the newest logged one |
| `SyncRuns.SyncedVersionsAreAuthored` | crates/common/src/peer/sync/sync_bucket.rs:428-475 | over every sequence of jobs for any buckets, every signed version that was not logged at the start is signed by an owner in its immediate predecessor's shares, or in its own at genesis |
| `SyncRuns.JobKeepsGrounded` | crates/common/src/peer/sync/sync_bucket.rs:358-410 | jobs keep every logged version at the height its manifest says, on top of its predecessor |
| `SyncRuns.OldestFits` | crates/common/src/bucket_log/memory.rs:103-144 | the oldest missing version of a history whose heights count up is never rejected by the log |
| `SyncRuns.OneFewerMissing` | crates/common/src/peer/sync/sync_bucket.rs:358-410 | appending a version lowers the number missing by one in exactly the histories it is part of |
| `SyncRuns.JobProgressExactlyWhen` | crates/common/src/peer/sync/sync_bucket.rs:52-157 | a job appends a version, the oldest missing one, if and only if something is missing, history is shared, the missing versions and the newest logged one can be fetched, the missing ones are properly authored, the target lists the receiver, and its author is an owner in the newest logged version; otherwise the log is unchanged |
| `SyncRuns.AncestorExactlyWhen` | crates/common/src/peer/sync/sync_bucket.rs:272-353 | the ancestor search succeeds exactly when the missing versions and the newest logged one can be fetched |
| `SyncRuns.CheckExactlyWhen` | crates/common/src/peer/sync/sync_bucket.rs:236-250 | the check of the downloaded chain passes exactly when every missing version is properly authored, and fails with what is wrong with the oldest one that is not |
| `SyncRuns.VerifiesExactlyWhen` | crates/common/src/peer/sync/sync_bucket.rs:428-475 | a version passes the author check exactly when it is unsigned, or validly signed by an owner in the shares before it; each fault has its error |
| `SyncRuns.JobResultExactlyWhen` | crates/common/src/peer/sync/sync_bucket.rs:52-157 | the result of every job, error by error: a failed download, no shared history, the fault of the oldest faulty version, an unlisted receiver, an author the newest logged version does not know as an owner |
| `SyncRuns.JobSucceedsExactlyWhen` | crates/common/src/peer/sync/sync_bucket.rs:52-157 | with something missing a job succeeds if and only if what it needs can be fetched and, where history is shared, the missing versions are properly authored and, where it is listed, the author is known |
| `Refusals.NewOwnersVersionIsNotFollowed` | crates/common/src/peer/sync/sync_bucket.rs:133-137 | a run: the writer invites a second owner, who saves the next version; for a peer with only the genesis every job for that version fails and changes nothing, however often it is tried |
| `SyncRuns.JobAtTargetIsNoOp` | crates/common/src/peer/sync/sync_bucket.rs:52-157 | a job for a logged version changes nothing, and succeeds exactly if the version can be fetched |
| `SyncRuns.CatchesUp` | crates/common/src/peer/sync/sync_bucket.rs:358-410 | n jobs log the target if and only if it was logged, or n is at least the number missing, the missing versions can be had and are in order, the target lists the receiver, and its author is an owner in the newest logged version and in each missing one below it; otherwise the log stops at the first version where that fails, and further jobs change nothing |
| `Refusals.RejectedAppendHarmlessExactlyWhen` | crates/common/src/bucket_log/memory.rs:98-101 | after a rejected append every job does what it would have done without it, names aside, if and only if the bucket was known |
| `Refusals.RejectedOnUnknownBucket` | crates/common/src/bucket_log/memory.rs:98-101 | if it was unknown, no job adds to the bucket any more |
| `Refusals.CrookedGenesisBlocksBucket` | crates/common/src/peer/sync/sync_bucket.rs:358-410 | such an append: following a genesis that claims another height than 0 fails, and no later job, for whatever target, adds to that bucket |
| `Ping.ExchangeServesTheLower` | crates/common/src/peer/protocol/messages/ping.rs:102-319 | an exchange gives at most one job, to the side that is lower or has nothing, for the other side's head, and none exactly when both are level |
| `Ping.StatusIs` | crates/common/src/peer/protocol/messages/ping.rs:102-133 | the answer says which of two levels is higher, and carries the responder's head whenever they differ |
| `Ping.JobMovesUp` | crates/common/src/peer/sync/sync_bucket.rs:358-410 | on one history a job for a higher version takes a peer from its first n versions to its first n + 1 if it progresses, and leaves it otherwise |
| `Ping.RoundsAreJobs` | crates/common/src/peer/protocol/messages/ping.rs:135-319 | whoever starts each exchange, n exchanges between a lower and a higher peer are n jobs of the lower one for the head of the higher one, which stays as it is |
| `Ping.PeersConvergeExactlyWhen` | crates/common/src/peer/protocol/messages/ping.rs:102-319 | for logs with any forks: two peers report the same head after n rounds if and only if they did before, or their levels differ, the lower one can follow the head of the higher one, and n is at least the number of its versions the lower one misses; the common head is that of the higher peer |
| `PeerRuns.AnyPeersConvergeExactlyWhen` | crates/common/src/peer/protocol/messages/ping.rs:102-319 | the same of any two peers after any runs of theirs |
| `Forks.LowerForkComesOver` | crates/common/src/peer/protocol/messages/ping.rs:102-319 | an instance: a peer on one first version and a peer two versions up on another fork report the same head after two rounds and not before |
| `Forks.ForkAtOneHeightStays` | crates/common/src/peer/protocol/messages/ping.rs:102-133 | an instance: peers on two first versions of one genesis are told they are in sync and report different heads for ever |
| `Ping.TwoPeersConverge` | crates/common/src/peer/protocol/messages/ping.rs:102-319 | without forks, on one history with fixed shares, that number of rounds is the gap between their heights |
| `HashLists.CreateHashList` | crates/common/src/peer/blobs_store.rs:350-364 | the loop writes 32 bytes for each hash in order |
| `HashLists.ReadHashList` | crates/common/src/peer/blobs_store.rs:367-385 | fails exactly when the length is no multiple of 32, and otherwise hash i is read from bytes 32 i to 32 i + 32 |
| `HashLists.HashListRoundTrip` | crates/common/src/peer/blobs_store.rs:350-385 | reading a written list gives the same hashes in the same order |
| `HashLists.PinsSurviveTheList` | crates/common/src/mount/mount_inner.rs:1066-1101 | in whatever order a pin set is written, the set read back from the bytes is the same |
| `HashLists.DownloadHashList` | crates/common/src/peer/blobs_store.rs:260-340 | succeeds exactly when the bytes of the list are a whole number of hashes and it and all they name are here or at a source, and then all of them are here |
| `Chunks.SendLeaves` | crates/object-store/src/actor.rs:753-768 | the offset loop sends the leaves of a stretch |
| `Chunks.ExportRanges` | crates/object-store/src/actor.rs:773-831 | sends the size; for each range a byte is in a leaf exactly when it is in the range and in the blob, leaves have 1 to 1024 bytes, and they join to exactly those bytes in order |
| `Chunks.LeavesWithin` | crates/object-store/src/actor.rs:753-768 | no leaf reaches out of its stretch, and every leaf but the last has 1024 bytes |
| `Chunks.LeavesJoinToStretch` | crates/object-store/src/actor.rs:773-831 | leaves have 1 to 1024 bytes, are the bytes at their offsets, and join to exactly the stretch |
| `Chunks.ImportBao` | crates/object-store/src/actor.rs:619-722 | refuses exactly sizes above 1073741824, fills a zeroed buffer, and stores it exactly if it has the expected hash |
| `Chunks.FilledIsRight` | crates/object-store/src/actor.rs:644-700 | a byte that some true leaf brought is right, whatever came in what order |
| `Chunks.FilledMore` | crates/object-store/src/actor.rs:644-700 | a leaf that fits sets exactly the bytes it covers; one that does not fit changes nothing |
| `Chunks.TransferRoundTrip` | crates/object-store/src/actor.rs:644-722 | if what arrives is exactly the exported leaves, in any order and with repetitions, the buffer is the blob |
| `Chunks.SendAndReceive` | crates/object-store/src/actor.rs:619-768 | exporting a non-empty blob within the limit and importing what was exported stores the same bytes |

## Left out

- Cryptography (ChaCha20-Poly1305, AES key wrap, Ed25519, BLAKE3) and encodings (DAG-CBOR, bincode, CIDs): ideal constructors stand for them.
- MIME types and metadata of file links: they take part in no decision.
- A file whose bytes happen to decode as a directory: opening a file as a directory is always a codec error here.
- Path cleaning: paths are sequences of ordinary names; `..` components, relative paths and non-UTF-8 names are not modelled.
- Integer widths: clocks and heights are naturals, so the unchecked 64-bit increments never wrap.
- Payloads of errors, log messages and the display of values.
- The first pass of `merge_with_resolver` (crates/common/src/mount/path_ops.rs:200-222): its result is never used.
- Convergence of conflict-file merging between peers: it does not hold, because a renamed operation keeps its id.
- `collect_ops_since`, `apply_resolved_state` and `merge_from`: the last two do not recreate files, so tree convergence is not a theorem about them.
- `ls` of one directory, `is_published`, getters and setters: they would only add easy members.
- Manifest fields that nothing here depends on (software version).
- The network, the job queue, locks and timers: a download supplies the blob or fails, and jobs run one at a time.
- The list of peers a job asks, and the notifications that follow a save: a job sees only the union of what its sources supply.
- SQLite providers of the bucket log and the object store, FUSE, the HTTP server, command line and desktop application.
- Parent hashes of the BLAKE3 tree in transfers: only leaves carry content, and the final hash check is kept.
- MergeAllLogs: takes the logs as values, so it says nothing about aliasing between the logs of the list.
- LsDeep: descends into each child directly, where the code walks again from the root to each child's absolute path; if several directories do not open, which of their errors comes first is not stated.
- CreateHashList: that the bytes of a stored pin list are the ones written for its set is a hypothesis of `DownloadPins`, since a pin list blob is modelled by the set itself.
- LogHoldsSavedVersions: the blobs that a peer downloads while it follows another are not put into its store, so that it opens only versions it wrote itself.
