# Roodox: a verified model of its state

Roodox is a file server that keeps every version of every file in SQLite, refuses writes based on
a stale version, runs remote builds, and manages client devices. This project models the parts
that carry state and proves what they promise. `dafny verify dfyconfig.toml` checks everything.

## How it is built

**The file store.** `tables.dfy` holds the four tables `meta`, `file_head`, `version` and
`version_blob` as maps and the three transactions on them; `like.dfy` is SQLite's LIKE with the
pattern that a subtree rename builds; `paths.dfy`, `bytes.dfy` and `disk.dfy` are paths, file
contents and the file tree with modification times; `conflict_copies.dfy` is the retention of
conflict copies. `handlers.dfy` gives each request as a function of the state and of everything
outside it: clock, fate of each transaction attempt, success of system calls, generated name tags,
configured limits. `version_store.dfy` and `server.dfy` are the same operations as classes that
change fields statement by statement; every method is proved to have exactly the effect of its
function. `answers.dfy` states, for every request and failure and without naming those functions,
which answer is given and what it leaves. `store.dfy` proves what single requests do, `agreement.dfy` when exactly they keep disk
and tables in agreement, `failures.dfy` the inputs where they do not, `runs.dfy` what runs keep,
`lost_updates.dfy` what base versions guarantee along runs, and `version_service.dfy` what can be
read back. `interleaving.dfy`, `interleaved_disk.dfy` and `interleaved_runs.dfy` prove what holds
when handlers interleave between locks, head lookup, disk change, read-back, transaction and, for
renames, the move back. `handler_steps.dfy`, `row_locality.dfy` and `serializability.dfy` prove
that interleaved requests other than renames are equal to a sequential run of the same requests.

**Locks and builds.** `path_locker.dfy` (many threads, sorted multi-lock), `lease.dfy`,
`build_runner.dfy` (unit lock, then worker slot, beside a cleaner with two critical sections),
`build_cleanup.dfy`, `build_log.dfy`.

**Timers and retention.** `runner_loop.dfy` (trigger channel, interval, one timer),
`file_janitor.dfy` (in-place filter, removals that may fail), `sampler.dfy` (ring buffer and
nearest-rank percentiles). `sorting.dfy` stands in for the library sort and leaves ties open.

**Devices.** `registry.dfy` has the device, policy and action rows, `control_plane.dfy` the
services, `policy_pull.dfy` and `actions.dfy` their interleavings at statement granularity.

## Where the code does not meet the obvious claim

The model follows the code; each of these is stated exactly rather than assumed away.

- Disk first, tables second: which requests leave the two apart is `Agreement.StepConsistentIff`,
  for every request and failure. The cases, each with an input in `failures.dfy`: a change that is
  not read back or recorded, if a live file's bytes changed; a delete that is not recorded, if the
  path has a meta row; a rename onto a live file, which the tables refuse for a tracked source
  (the target's bytes are gone) and accept for an untracked one (the target's row stays);
  a refused rename that cannot be moved back; a rename that takes the row of a case twin along.
- Version numbers follow the history on a rename, so the old path starts again at 1 and a base
  number can name another file's version. `LostUpdates.SameVersionIff` says when, and
  `LostUpdates.RenameAndRecreateLosesAnUpdate` is a run that loses an update.
- A rename takes only its two named locks. Versions are safe beside it for changes of paths that
  it neither picks nor has below its target (`Interleaving.NoLostUpdate`). Disk and tables agree
  beside it, for whole trees, if no request at work at the same time has a path above or below one
  of its ends, its names are ordinary, its target is no live file and no case twin of its source is
  stored when it commits (`InterleavedRuns.QuietStoreIsConsistent`). An interleaving with a write
  below a renamed directory breaks both, and no order of the two requests explains it
  (`InterleavedRuns.AncestorRenameBreaksBoth`, `InterleavedRuns.NoOrderGivesThat`).
- The rename's LIKE ignores ASCII case (`Like.UpdateFollowsTree`, `Tables.TwinIsDraggedAlong`).
- A WriteFile of an empty payload records a version without a blob, which then cannot be read
  back or used as a base snapshot (`VersionService.AcceptedChangeReadsBack`, `Store.SnapshotLoads`).
- An empty range write past the end extends the conflict copy but not a file on disk
  (`Bytes.SpliceAgreesWithDisk`).
- The cleanup after a conflict can delete the copy just written, exactly if as many copies as may
  stay claim to be newer or the cleanup comes a lifetime late (`Store.ConflictCopyHoldsTheChange`).
- A policy read that fails after the flag was cleared leaves the device on its old configuration
  with a clear flag (`PolicyPull.FailedReadLeavesDeviceBehind`).
- Two overlapping heartbeats can return the same action (`Actions.OverlappingHeartbeatsRepeat`).

## Assumptions

- Records carry whole seconds, so several may carry the same time and nothing but
  `LostUpdates.RecordTellsIff` depends on recorded times; the system's stamps on files are separate.
- SHA-256 has no collisions: a digest is a constructor that carries its content.
- A transaction is atomic; its attempts end clean, busy or failed. A system call on the disk
  happens as a whole or fails as a whole (creating parents and renaming are separate).
- Paths are normalised, non-empty and relative; identifiers are already trimmed.
- Only this server changes the disk and the database.

## Model

| member | source | states |
|---|---|---|
| `Runs.RunConsistentIff` | internal/server/core_service.go:172-402 | In every run of writes, range writes, resizes, deletes, mkdirs, renames and background cleanups, disk and tables agree after each request if and only if each request is harmless when it comes |
| `Runs.RunKeepsConsistent` | internal/server/core_service.go:172-402 | Such a run ends with disk, meta rows, heads, records and blobs in agreement |
| `Runs.FreshStoreRuns` | internal/db/version.go:40-88 | The same from an empty database over any well-formed disk: each live file's bytes are those of its newest version |
| `Agreement.StepConsistentIff` | internal/server/core_service.go:172-402 | A request of any kind, with any failure, keeps the agreement if and only if a condition on the state, the request and its environment holds |
| `Agreement.ChangeAgreement` | internal/server/sync_service.go:138-191 | WriteFile, WriteFileRange and SetFileSize: broken exactly if the disk was changed, the read-back or the transaction then failed, and the bytes of a live file differ |
| `Agreement.EraseAgreement` | internal/server/core_service.go:312-342 | Delete: broken exactly if the node went, the transaction then failed, and the path has a meta row, a directory's included |
| `Agreement.MakeDirAgreement` | internal/server/core_service.go:377-402 | Mkdir never breaks it, a failed meta statement included |
| `Agreement.MoveAgreement` | internal/server/core_service.go:344-375 | Rename: the exact condition for each end, committed, moved back and stranded |
| `Agreement.CommittedMoveAgreement` | internal/server/core_service.go:357-372 | A committed rename keeps the agreement exactly if each row finds its bytes where the rename sends it; only rows of case twins, the target's row and a conflict-marked source's row can miss them |
| `Agreement.RevertedMoveAgreement` | internal/server/core_service.go:361-370 | A refused rename that is moved back keeps it exactly if the target has no row of its own |
| `Agreement.StrandedMoveAgreement` | internal/server/core_service.go:361-366 | A refused rename that is not moved back keeps it exactly if no ordinary row names a path of the tree and a target's row shows the moved bytes |
| `Agreement.DeleteOutcome` | internal/db/version.go:66-88 | A delete is accepted exactly if the node can be removed and the transaction lands; it appends one deletion record and removes the meta row; otherwise the tables are untouched |
| `Agreement.CurrentBaseIsAccepted` | internal/server/core_service.go:197-240 | A change to a live file that names the current version or none is accepted unless the system fails |
| `Failures.OrdinaryRequestsAreHarmless` | internal/server/core_service.go:172-402 | In ordinary words: enough is that nothing fails after the disk was changed, and that a rename has no case twins, no live target and does not give a marked path an ordinary name |
| `Failures.FailedCommit` | internal/server/file_mutation_support.go:119-143 | A change that is not read back or not recorded fails, and breaks the agreement exactly if it altered the bytes of a live file |
| `Failures.FailedErase` | internal/server/core_service.go:326-340 | A delete that is not recorded fails, and breaks the agreement exactly if the path has a meta row |
| `Failures.OverwritingMove` | internal/server/core_service.go:357-370 | A tracked file renamed onto a live one: refused by the tables, and the target's bytes are gone |
| `Failures.OverwritingByUntracked` | internal/server/core_service.go:357-372 | An untracked file renamed onto a live one: accepted, and the agreement survives exactly if the bytes are the same |
| `Failures.StrandedMove` | internal/server/core_service.go:361-366 | A rename refused by the tables whose move back fails breaks the agreement if the tree holds an ordinary row |
| `Failures.TwinLosesItsNode` | internal/db/version.go:386-398 | A committed rename that takes the row of a case twin leaves its bytes behind |
| `Failures.WriteAhead` | internal/server/file_mutation_support.go:119-143 | An input at which a failed commit of a write breaks the agreement |
| `Failures.EraseAhead` | internal/server/core_service.go:326-340 | An input at which a failed commit of a delete breaks it |
| `Failures.UntrackedOverwrites` | internal/server/core_service.go:357-372 | An input at which an accepted rename of an untracked file breaks it |
| `Failures.NobodyTakesItBack` | internal/server/core_service.go:361-366 | An input at which a failed move back breaks it |
| `Runs.RunKeepsHistory` | internal/db/version.go:90-106 | Along every run, failures and any renames included, each file's versions stay exactly 1..n for a growing n, and no record or blob is altered, dropped or reordered, only relocated by renames |
| `Runs.StepKeepsHistory` | internal/db/version.go:236-398 | The same for one request |
| `Runs.RunNeverMerges` | internal/db/migrations.go:86-111 | No run ever brings the histories of two paths together |
| `Runs.StepNeverMerges` | internal/db/version.go:386-398 | The same for one request: a rename that would is refused |
| `LostUpdates.SameVersionIff` | internal/db/version.go:236-258 | Along every run each version is found, with its record and content, where renames have taken its file; and whichever of the first store's versions ends at a path and number is the one that was there if and only if renames have left the file there or brought it back |
| `LostUpdates.OneVersionAtAPlace` | internal/db/migrations.go:86-111 | No two versions of the first store end at one path and number |
| `LostUpdates.NoLostUpdateAlongRuns` | internal/server/sync_service.go:144-190 | A write to a live file with an ordinary name, accepted after any run that left disk and tables in agreement, with a base read before the run: if the file is still, or again, at the path, its result is the change of exactly the bytes its writer saw; whichever old version it was made to is the writer's if and only if the file is there |
| `LostUpdates.RecordTellsIff` | internal/server/file_mutation_support.go:119-143 | If the recorded times all differ and each request records a later one than all before, the record found at the path and number tells: it is the old one if and only if the file is there |
| `LostUpdates.SameSecondHidesTheSwap` | internal/server/file_mutation_support.go:124-124 | Within one second it does not: a run that swaps the file for another one and leaves an equal record |
| `LostUpdates.RenameAndRecreateLosesAnUpdate` | internal/db/version.go:90-106 | A run in which it is not: the file is renamed, another one is created and has version 1 again, and a write with base 1 is accepted over bytes its writer never saw |
| `Answers.ChangeAnswer` | internal/server/core_service.go:172-310 | Every change that is not outdated, of any path, in terms of disk nodes, rows and failures alone: answered at once exactly if there is nothing to change; otherwise accepted as the next version, creating the file and the directories above it where they are missing, if and only if no file stands in the way, the path is no directory, the end is a file offset, the system calls work and the transaction gets through; otherwise failed with the tables as they were; and the whole new disk and all rows of an accepted one |
| `Answers.ShortcutIsTaken` | internal/server/sync_service.go:166-176 | WriteFile's and SetFileSize's shortcuts are taken if and only if the rows and the node say that there is nothing to change |
| `Answers.MalformedAnswer` | internal/server/core_service.go:420-455 | A negative offset or size is refused and changes nothing |
| `Answers.ConflictAnswer` | internal/server/core_service.go:197-218 | Every outdated change: the tables stay and the current version and size are reported; a copy is written, under the first free name, if and only if the disk works, no file stands in the way, one of the first 32 names is free, and, for a range write or resize, the base is a recorded version that is a deletion or has its bytes and the result fits 63 bits; without one a WriteFile fails and the others report the conflict alone |
| `Answers.CopyGetsFirstFreeName` | internal/server/file_mutation_support.go:145-192 | A copy is created if and only if no file stands in the way and one of the tried names is free, and gets the first free one |
| `Answers.DeleteAnswer` | internal/server/core_service.go:312-342 | Every delete: accepted if and only if the node is there with nothing below it, the system call works and the transaction gets through; the whole new disk, and the deletion record with the size the meta row had |
| `Answers.MkdirAnswer` | internal/server/core_service.go:377-402 | Every mkdir: accepted if and only if no file stands at the path or above it, the system call works and the one statement works, which is not retried |
| `Answers.RenameAnswer` | internal/server/core_service.go:344-375 | Every rename: accepted if and only if the disk can move the tree, the transaction gets through and no two heads or meta rows would share a path; then tree and rows are at the target; a refused one leaves the tables and, unless the move back fails, every node but a replaced target |
| `Answers.ResolvedByRows` | internal/server/file_mutation_support.go:54-117 | What ResolveFileHead reports, in rows and nodes: the current number, whether the path is known, its size and its digest |
| `Store.LiveFile` | internal/server/file_mutation_support.go:54-143 | For a live file the disk bytes, the size, the SHA-256, the newest version's record and blob coincide, and `meta.version`, `file_head` and the largest recorded version are one number |
| `Store.MutateOutcome` | internal/server/sync_service.go:138-191 | Every outcome of a change under any environment: accepted means not stale and committed as the next version, or a shortcut that left everything alone at the current version; a conflict was stale and reports the current version; otherwise the tables are untouched; which of these it is, for every input, is `Answers.ChangeAnswer` and `Answers.ConflictAnswer` |
| `Store.SaveCommits` | internal/server/file_mutation_support.go:119-143 | Recording a change succeeds exactly if no attempt hits a lasting error, takes the next version, and records the mutation of the bytes that were on disk |
| `Store.AcceptedChangeIsOnDisk` | internal/server/core_service.go:219-240 | After an accepted change the file on disk is the change applied to what was there, the reply reports its size, and no other node is altered |
| `Store.ShortcutIsSound` | internal/server/sync_service.go:166-176 | Where WriteFile's equal-hash or SetFileSize's equal-size shortcut answers without writing, the file already holds what the change would have made of it |
| `Store.BasedWriteContinuesItsBase` | internal/server/sync_service.go:144-190 | An accepted write with a non-zero base on a path with versions is version base+1 holding the mutation of the version base that is there then, or finds nothing to change in it |
| `Store.ConflictChangesNothing` | internal/server/core_service.go:197-218 | A conflicted change leaves the tables and every file on disk (a WriteFile may prune conflict-marked ones) as they were, keeps the agreement and reports the current version |
| `Store.ConflictReportsCurrent` | internal/server/core_service.go:261-280 | A conflict reports the current version, which is not the base, and for a live file its current size |
| `Store.ConflictCopyHoldsTheChange` | internal/server/core_service.go:404-418 | A reported conflict copy was written at a new path and holds exactly what the change would have made of its base snapshot, if and only if that is not an empty range write past the end; the cleanup of a WriteFile removes it at once exactly if it is too old by then, or as many copies as may stay rank before it, and it can be deleted; when there is a copy is `Answers.ConflictAnswer` |
| `Store.ReportedCopyIsThere` | internal/server/sync_service.go:221-233 | A WriteFile's reported copy is on disk with the caller's bytes if no copy of the file claims to be as new and the cleanup does not start a whole lifetime later |
| `Runs.ReportedCopiesAreThere` | internal/server/sync_service.go:221-305 | Along every harmless run whose requests write at later and later times the first of these conditions always holds |
| `Store.CopiesAreLimited` | internal/server/sync_service.go:279-303 | After a conflict at most the allowed number of copies of the file is left, if every removal works |
| `Store.CleanupSparesOthers` | internal/server/sync_service.go:255-303 | A conflict removes no copy of another file with an unmarked name unless it is too old |
| `Store.SnapshotLoads` | internal/server/file_mutation_support.go:194-211 | A base snapshot loads exactly when it is a recorded version that is a deletion or has a blob, and then it is that version's content; otherwise the conflict path is empty |
| `Store.CreatedCopy` | internal/server/file_mutation_support.go:145-192 | Exclusive creation under retried names makes one new conflict-marked file and leaves everything else |
| `Store.ResolvedVersion` | internal/server/file_mutation_support.go:54-117 | ResolveFileHead reports the length of the history, 0 for a directory, and for a live file its meta row |
| `ConflictCopies.CleanedCopy` | internal/server/sync_service.go:241-356 | A cleanup, sweep included, leaves a copy exactly if it is young enough and among the newest ones allowed, or cannot be deleted |
| `ConflictCopies.CleanupDeletesExactly` | internal/server/sync_service.go:241-356 | Which nodes a cleanup deletes, sweep included, if and only if, in times, ranks and names; it alters no other node and notes the time of a sweep exactly when one is due |
| `ConflictCopies.LaterIsAhead` | internal/server/sync_service.go:279-284 | A copy written later ranks before one written earlier; among equals the greater name does |
| `ConflictCopies.AtMostTheLimit` | internal/server/sync_service.go:279-303 | At most the allowed number of copies is left and none too old |
| `ConflictCopies.OtherCopiesStay` | internal/server/sync_service.go:255-303 | What a cleanup deletes is a copy of the file, or is too old and found by a due sweep |
| `ConflictCopies.RankIsPlace` | internal/server/sync_service.go:279-290 | A copy's place in the sorted listing is the number of copies ahead of it |
| `Paths.CopiesTellTheirFile` | internal/server/sync_service.go:255-268 | The name prefix finds the copies of one file with an unmarked name only |
| `VersionService.VersionsReadForEver` | internal/server/version_service.go:46-65 | Along every run each recorded version gives the same answer for ever, at the place its file has moved to |
| `VersionService.AcceptedChangeReadsBack` | internal/db/version.go:348-369 | An accepted change reads back, under the version it reports, as the mutation of the old bytes, exactly unless it wrote an empty payload whole, or was a shortcut over a current version that has no blob |
| `VersionService.ReadableVersions` | internal/server/version_service.go:46-65 | A recorded version that can be read gives its content; one that cannot is not a deletion, has no blob, and is empty |
| `VersionService.ListingIsTheHistory` | internal/db/version.go:108-129 | A history listing is versions 1, 2, 3, ... in order with none missing |
| `VersionService.GetHistory` | internal/server/version_service.go:21-44 | The rows of one path, each once, in ascending version order |
| `VersionService.GetVersion` | internal/server/version_service.go:46-65 | The content of a recorded version; an error exactly for numbers outside the history and for empty files written whole |
| `Tables.RenameRefusal` | internal/db/version.go:90-106 | A rename is refused exactly when two files, live or deleted, or two meta rows would share a path; without stored case twins that is when a file of the tree would land on a path with a history or a meta row on a path with one |
| `Tables.MoveRefusal` | internal/db/migrations.go:86-111 | Moving dense histories along any path map collides on a primary key exactly when two heads or two meta rows collide: version 1 is always there to collide |
| `Tables.RenameMovesFiles` | internal/db/version.go:386-398 | A committed rename sends every file, live or deleted, with all its rows to where the UPDATE sends its path, and nothing else appears; without stored case twins exactly the tree moves to new+rest |
| `Tables.MoveMovesFiles` | internal/db/version.go:386-398 | The same for a committed move along any path map |
| `Tables.RenameRoundTrip` | internal/db/version.go:90-106 | Renaming a tree into an empty place and back restores all four tables if and only if neither rename meets a stored case twin of the tree it moves |
| `Tables.TwinIsDraggedAlong` | internal/db/version.go:386-398 | Without the no-twin condition the rename takes a case variant's rows along, because LIKE ignores ASCII case |
| `Tables.MoveStaysRecorded` | internal/db/version.go:386-398 | A committed move keeps versions 1..n, records, blobs, heads and meta rows in agreement |
| `Tables.MoveKeepsFile` | internal/db/version.go:386-398 | Each path keeps its records and blobs at its new place |
| `Tables.AppendExtends` | internal/db/version.go:236-258 | Appending always succeeds with the next number, adds one record and its blob at the end, leaves every other path alone, and keeps the tables in agreement |
| `Tables.DenseCounter` | internal/db/version.go:260-308 | `file_head`, and what ensureFileHeadTx rebuilds it from, equal the largest version and the length of the history |
| `Tables.MaxVersion` | internal/db/version.go:260-308 | COALESCE(MAX(version), 0) over one path's rows |
| `Tables.LandsIffItGetsThrough` | internal/db/version.go:184-234 | A transaction lands if and only if one of its first five attempts ends clean and all before it are busy |
| `Tables.LostCounterIsRebuilt` | internal/db/version.go:260-320 | Without a `file_head` row the next version still follows every recorded one and the meta row's, and in tables that were in order it is the one that was lost |
| `Like.EscapedPatternIsLiteral` | internal/db/version.go:400-403 | LIKE on the escaped pattern matches exactly the strings with that literal prefix up to ASCII case, for every path containing %, _ or a backslash |
| `Like.PickedRows` | internal/db/version.go:386-398 | The rows picked are the tree and its case variants, nothing else |
| `Like.UpdateFollowsTree` | internal/db/version.go:386-398 | The UPDATE sends a row where the tree move sends it, exactly unless the row is a case twin outside a target of the same length |
| `Like.EscapeSQLiteLikePattern` | internal/db/version.go:400-403 | The escaping loop puts a backslash before each backslash, % and _ and changes nothing else |
| `Paths.RelocateBack` | internal/db/version.go:386-398 | Moving a path there and back returns it, for every path outside the target tree |
| `Paths.ConflictPathFacts` | internal/server/file_mutation_support.go:145-161 | A generated conflict name lies beside its file, differs from it and carries the conflict mark |
| `Paths.RelocateReserves` | internal/db/version.go:386-398 | Moving a tree neither marks nor unmarks the paths below its root, since only the last component counts |
| `Paths.MarkedNames` | internal/fs/ignore.go:33-37 | A path is conflict-marked if and only if its last component has the mark, in any ASCII letter case, anywhere in it |
| `Paths.WalkedBelow` | internal/server/sync_service.go:331-341 | The sweep's walk enters every directory but those with an ignored name |
| `Paths.IgnoredNames` | internal/fs/ignore.go:12-31 | The ignored names: three fixed ones and three suffixes |
| `Paths.LastComponent` | internal/fs/ignore.go:12-13 | The base name is what follows the last slash |
| `Paths.FoldsLetterCase` | internal/db/version.go:386-398 | LIKE takes two characters for one exactly if they are the same ASCII letter up to case |
| `Bytes.ApplyRangeMutation` | internal/server/core_service.go:420-442 | For all 64-bit offsets: fails exactly if the offset is negative or the end does not fit, overflow included, never leaves its buffer, else splices with a zero-filled gap |
| `Bytes.ResizeFileData` | internal/server/core_service.go:444-455 | Fails exactly if the size is negative or does not fit, else truncates or zero-extends |
| `Bytes.SpliceAgreesWithDisk` | internal/fs/filesystem.go:103-133 | The spliced buffer equals the disk's positioned write, byte by byte, if and only if the data is non-empty or the offset within the file |
| `Bytes.ResizeAgreesWithDisk` | internal/fs/filesystem.go:135-164 | The resized buffer equals the disk's truncate |
| `Disk.MutatedFile` | internal/fs/filesystem.go:53-164 | A write, positioned write or truncate makes parents, changes one file and leaves every other node; when it works is `Disk.ChangedNodes` |
| `Disk.ChangedNodes` | internal/fs/filesystem.go:53-164 | A write, positioned write or truncate of any path works if and only if no file stands in its way, the path is no directory and its end is a file offset; it creates what is missing, and what a failed one leaves is stated too |
| `Disk.AppliedBytes` | internal/fs/filesystem.go:103-164 | The bytes of the file afterwards, one by one, for each kind of change |
| `Disk.RemovedNodes` | internal/fs/filesystem.go:166-172 | A node is removed if and only if it is there and nothing lies below it |
| `Disk.MadeNodes` | internal/fs/filesystem.go:174-180 | A directory is made, with all above it, if and only if no file stands there or above |
| `Disk.RenamedNodes` | internal/fs/filesystem.go:182-195 | A rename works if and only if the source is there, no file stands in the target's way, the target is not in the source, and only a file replaces a file; what a failed one leaves |
| `Disk.RenamedNode` | internal/fs/filesystem.go:182-195 | An accepted disk rename moves the whole tree and keeps the tree well formed |
| `Disk.RevertedNode` | internal/server/core_service.go:357-370 | Renaming back works and restores every node but a replaced target file |
| `Disk.ShiftStaysWellFormed` | internal/fs/filesystem.go:182-195 | Every moved or untouched node still has its parent directories |
| `Disk.MadeDirs` | internal/fs/filesystem.go:174-180 | Creating parents adds directories and changes no existing node |
| `VersionStore.VersionStore.WithWriteTx` | internal/db/version.go:184-234 | At most five attempts, only a busy database is retried; the tables show the body's effect once, with its version, or not at all |
| `VersionStore.VersionStore.Try` | internal/db/version.go:184-234 | One attempt commits the whole body or rolls all four tables back |
| `VersionStore.VersionStore.RunBody` | internal/db/version.go:40-106 | The statements of a save, a delete or a rename, in order, have the transaction's effect |
| `VersionStore.VersionStore.RenamePathTreeTx` | internal/db/version.go:90-106 | The four UPDATEs succeed together or the first collision stops them |
| `VersionStore.VersionStore.NextVersionTx` | internal/db/version.go:236-258 | Repairs the counter, raises it by one and returns it |
| `VersionStore.VersionStore.EnsureFileHeadTx` | internal/db/version.go:260-320 | Ends with the counter at the maximum of head, meta row and recorded versions |
| `VersionStore.VersionStore.InsertSnapshotTx` | internal/db/version.go:348-369 | Inserts the record, and a blob only when there is data; a taken key is a constraint violation |
| `VersionStore.VersionStore.GetLatestRecord` | internal/db/version.go:148-165 | The record with the largest version of a path, if any |
| `VersionStore.VersionStore.SelectMaxVersion` | internal/db/version.go:260-308 | The largest recorded version of a path, 0 without one |
| `VersionStore.MoveRows` | internal/db/version.go:386-398 | Updating one table's key column row by row succeeds exactly if no two keys collide, and then maps every row |
| `Server.FileServer.ResolveFileHead` | internal/server/file_mutation_support.go:54-117 | The field-by-field construction gives the head the handlers reason with |
| `Server.FileServer.WriteConflictFile` | internal/server/file_mutation_support.go:145-192 | The retry loop creates a copy under the first free generated name, at most 32 tries |
| `Server.FileServer.SaveFileSnapshot` | internal/server/file_mutation_support.go:119-143 | Hashes and records the given bytes in one retried transaction |
| `Server.FileServer.WriteFile` | internal/server/sync_service.go:138-191 | Statement by statement, the whole new state and reply of a file write |
| `Server.FileServer.WriteFileStream` | internal/server/sync_service.go:362-394 | A stream is the write of its joined chunks to the first chunk's path and base; an empty stream fails, and paths of later chunks are ignored |
| `Server.JoinedInOrder` | internal/server/sync_service.go:362-394 | The chunks of a stream are joined in the order they came |
| `Server.FileServer.WriteFileRange` | internal/server/core_service.go:172-240 | The whole new state and reply of a range write: those of the change function whose every answer `Answers.ChangeAnswer`, `Answers.ConflictAnswer` and `Answers.MalformedAnswer` state |
| `Server.FileServer.SetFileSize` | internal/server/core_service.go:242-310 | The whole new state and reply of a resize, as for a range write |
| `Server.FileServer.Delete` | internal/server/core_service.go:312-342 | The whole new state and reply of a delete |
| `Server.FileServer.Mkdir` | internal/server/core_service.go:377-402 | The whole new state and reply of a mkdir |
| `Server.FileServer.Rename` | internal/server/core_service.go:344-375 | The whole new state and reply of a rename, the move back included |
| `Server.FileServer.CleanupConflictCopiesForPath` | internal/server/sync_service.go:241-305 | The loop over the sorted listing deletes exactly the copies of the file that are too old or beyond the limit and can be deleted |
| `Server.FileServer.Candidates` | internal/server/sync_service.go:255-290 | The listing holds each copy of the file once, newest first |
| `Server.FileServer.MaybeCleanupExpiredConflictFiles` | internal/server/sync_service.go:307-356 | At most once an interval, exactly the marked files that are too old and outside ignored directories go |
| `Server.FileServer.TidyConflictFiles` | internal/serverapp/file_janitors.go:95-145 | The background janitor deletes marked files and nothing else |
| `Interleaving.NoLostUpdate` | internal/server/path_locker.go:16-21 | In every interleaving of any requests, failures included, over any tables and disk, whose renames neither pick rows of a changed path nor have it below their target (a rename of the changed file itself is allowed): an accepted change that named a base on a path with versions found exactly that base, answers base+1 if it recorded a version and base only if it recorded none; while it has its lock the tables have that version; no two handlers have all locks of one path |
| `Interleaving.NoLostUpdateIn` | internal/server/core_service.go:172-240 | The same if only the renames that commit while a change of another path is under way spare that path |
| `Interleaving.AdvanceKeepsInv` | internal/server/core_service.go:344-375 | Whichever handler moves next, tables, locks and what each handler learned under its lock stay valid, unless the step commits a rename that does not spare the path of a change under way |
| `Interleaving.HandlersNeverDeadlock` | internal/server/path_locker.go:23-48 | In every interleaving of any requests, renames included: while one has not ended some handler can move; the moves are bounded by the requests; and when none can move all locks are back |
| `Interleaving.SomeHandlerCanMove` | internal/server/path_locker.go:23-49 | From any handler that has not ended, waits-for leads to one that can move |
| `Interleaving.HandlersAreLockers` | internal/server/path_locker.go:16-48 | Each step of a handler is a step of its thread in the lock service, or none: the theorems about threads and locks hold of handlers |
| `InterleavedDisk.TreeMoves` | internal/fs/filesystem.go:182-195 | A disk rename, accepted or not: the whole tree is at its target or nowhere new, new directories lie above the target, every other node stays |
| `InterleavedDisk.AdvanceKeepsDiskInv` | internal/server/sync_service.go:166-190 | Whichever handler moves next without a failure after its disk change, every ordinary path nobody is in the middle of changing or renaming is on disk as its meta row says; renames move whole trees, between ordinary names, onto no live file, with no stored case twin when they commit, and neither above nor below a path of another request at work at that time |
| `InterleavedRuns.QuietStoreIsConsistent` | internal/serverapp/runtime.go:135-141 | In every interleaving of such steps disk and tables agree whenever no handler is half-way; requests before and after a rename may be anywhere, also in the renamed tree |
| `InterleavedRuns.AncestorRenameBreaksBoth` | internal/server/core_service.go:355-357 | An interleaving where a directory is renamed during a write below it: nobody fails, the tables have a file that is not on disk, and the write named base 2 and was answered version 1 |
| `InterleavedRuns.NoOrderGivesThat` | internal/server/core_service.go:355-357 | No sequential order of these two requests gives that answer and that store, whatever fails around them |
| `InterleavedRuns.AcceptedChangesLast` | internal/server/sync_service.go:166-190 | From a fresh start over every interleaving of such steps: a change to a live file with an ordinary name is recorded as the change of exactly the version before it, which is the base its writer named if it named one; over every later schedule, failures and any renames included, it stays so wherever the file is moved |
| `InterleavedRuns.StepKeepsVersions` | internal/db/version.go:236-398 | No step of any handler, in any state with valid tables, alters or drops a recorded version |
| `HandlerSteps.StepsAreTheHandler` | internal/server/core_service.go:172-402 | Undisturbed, the steps of a handler add up to the handler |
| `Serializability.EveryInterleavingIsSerial` | internal/server/core_service.go:172-402 | In every interleaving of changes of ordinary names, deletions and mkdirs, over any tables and any tree on disk, whatever fails: once none is between its disk change and its record, disk, tables and time of the last sweep are what exactly the answered requests make of the first store one after the other, each done whole and answered the same, in the order of one step of each taken under its lock |
| `Serializability.OrderRespectsTime` | internal/server/path_locker.go:16-21 | In that order a request that was answered while another still waited for its lock comes first |
| `Serializability.AgreementAtRest` | internal/serverapp/runtime.go:135-141 | So what is proved of runs holds of interleavings: disk and tables agree at rest if each request of the order is harmless where it comes, and every recorded version is kept |
| `Serializability.ServedAtOnce` | internal/server/sync_service.go:138-191 | A request done whole at the step that changes the disk or answers without changing it, over a store with the same disk and the same rows of its path, does and answers what its interrupted steps do |
| `Serializability.OtherPromiseStays` | internal/server/file_mutation_support.go:119-143 | A step of another handler changes neither what a half-way request will record nor what it will answer |
| `RowLocality.SameStep` | internal/db/version.go:236-308 | What a handler does and answers depends on the disk and on the rows of its own path only |
| `PathLocker.LockOrder` | internal/server/path_locker.go:23-38 | The lock plan: strictly ascending, so each path once, and exactly the given paths |
| `Sorting.FirstDifferenceDecides` | internal/server/path_locker.go:31-37 | The lock order: the first differing character decides and a path comes before its extensions |
| `PathLocker.NoDeadlock` | internal/server/path_locker.go:16-49 | In every run of any number of threads no two hold one path, and some thread can move while one is unfinished |
| `PathLocker.EveryRunEnds` | internal/server/path_locker.go:40-48 | Every run makes a bounded number of moves, and one that cannot go on has finished every thread and given back all locks |
| `PathLocker.HoldsOnlyBelow` | internal/server/path_locker.go:40-43 | A thread holds only paths strictly below the one it waits for |
| `PathLocker.SomeoneMoves` | internal/server/path_locker.go:23-49 | Following waits-for from any unfinished thread ends at one that can move |
| `PathLocker.WaitsOnlyForHolders` | internal/server/path_locker.go:16-48 | An unfinished thread waits if and only if another one holds the path it needs next |
| `PathLocker.StepKeepsInv` | internal/server/path_locker.go:23-49 | Each lock or unlock keeps ownership in step with what the threads hold |
| `PathLocker.StepDoesWork` | internal/server/path_locker.go:40-48 | Each move uses up one unit of the remaining work |
| `Lease.LeasesExclude` | internal/lock/manager.go:27-74 | Along every run with a clock that does not go back, two clients never both hold an unexpired promise for a path |
| `Lease.HandOverWaits` | internal/lock/manager.go:27-50 | A lease goes to another client only after the first one's latest expiry, renewals included, or its own release |
| `Lease.LeaseLasts` | internal/lock/manager.go:27-74 | A lease granted or renewed lasts exactly as long as asked for, or the configured time if for none: over every run in which its holder neither renews nor releases it, any acquisition up to its end is refused with its holder and expiry, and any after it is granted |
| `Lease.OnlyTheHolder` | internal/lock/manager.go:53-90 | A release by the holder frees the path at once; a release or renewal by anybody else changes nothing |
| `Lease.SweepLeavesTheRest` | internal/lock/manager.go:93-103 | A sweep leaves exactly the leases that have not run out |
| `Lease.Manager.Acquire` | internal/lock/manager.go:27-50 | Grants a free or expired path; refuses everyone else, the holder too, and then changes nothing |
| `Lease.Manager.Renew` | internal/lock/manager.go:53-74 | Extends the holder's lease; anyone else changes nothing |
| `Lease.Manager.Release` | internal/lock/manager.go:77-90 | Removes the holder's lease; anyone else changes nothing |
| `Lease.Manager.CleanupExpired` | internal/lock/manager.go:93-103 | Drops exactly the expired leases |
| `BuildRunner.EveryRunIsSafe` | internal/server/build_service.go:317-360 | In every interleaving of starts, builds and cleanup: at most workers run, at most one per unit, no unfinished job leaves the table, and some build can go on while one is unfinished |
| `BuildRunner.EveryRunEnds` | internal/server/build_service.go:317-360 | Builds take at most six steps each; when none can go on all have finished and every slot and unit lock is back |
| `BuildRunner.StatusTellsTheOutcome` | internal/server/build_service.go:333-397 | Along every run a job is a success if and only if its command has ended without error, failed if and only if it has ended with one, and queued or running otherwise |
| `BuildRunner.OutcomeOfStep` | internal/server/build_service.go:333-397 | The step that ends a running job's command makes it a success if and only if the command ended well; no other step ends a job |
| `BuildRunner.WaitsOnlyWhenTaken` | internal/server/build_service.go:317-331 | A build waits if and only if another one has its unit, or all slots are taken |
| `BuildRunner.TableTellsTheRun` | internal/server/build_service.go:187-206 | Along every run the table has exactly the jobs started, but for those that a pass has chosen and then discarded |
| `BuildRunner.StatusNeverGoesBack` | internal/server/build_service.go:362-397 | A finished job keeps its outcome along the whole run and nothing is queued again |
| `BuildRunner.StatusMovesForward` | internal/server/build_service.go:333-397 | One step moves a status from queued to running, from running to success or failed, or not at all; which of the two is `BuildRunner.OutcomeOfStep` |
| `BuildRunner.StepKeepsInv` | internal/server/build_service.go:317-360 | Each step keeps slots, unit locks, statuses and the job table in agreement |
| `BuildRunner.SomeoneMoves` | internal/server/build_service.go:321-327 | A build waiting for its unit leads to one that waits at most for a slot, and a slot holder can always go on |
| `BuildRunner.StepsAreCounted` | internal/server/build_service.go:187-206 | Every start adds six steps of work and every step of a build uses up one |
| `BuildCleanup.BuildService.CleanupJobs` | internal/server/build_service.go:406-494 | One pass removes a chosen set of finished jobs from whatever the table has become meanwhile, deletes just their work directories, never a queued or running job, and reports the earliest expiry of what it kept |
| `BuildCleanup.BuildService.Discard` | internal/server/build_service.go:476-486 | The second critical section deletes exactly the chosen jobs and lists their work directories |
| `BuildCleanup.BuildsEvolveTheTable` | internal/server/build_service.go:411-486 | Between the two critical sections builds and starts change the table only in the way the pass relies on |
| `BuildCleanup.PassIsPossible` | internal/server/build_service.go:411-474 | Whatever an acceptable pass over the table of a running service chooses may be chosen there |
| `BuildCleanup.PassForgetsItsChoice` | internal/server/build_service.go:476-486 | Whatever is started and built in between, the table is afterwards what it has become without the jobs chosen |
| `BuildCleanup.ChooseRemovals` | internal/server/build_service.go:411-474 | Chosen: only finished jobs, every overdue one, the others oldest first until the limits hold or none is left, and the last of those was needed |
| `BuildCleanup.ChoiceIsLeast` | internal/server/build_service.go:431-474 | Without ties no acceptable pass removes less than the chosen one |
| `BuildCleanup.ChoiceIsUnique` | internal/server/build_service.go:431-474 | Without ties the choice is determined |
| `BuildCleanup.OldestJobsGo` | internal/server/build_service.go:431-474 | A job that goes although it is not overdue finished no later than any finished job that stays, and of two that finished together the one created first goes first; every overdue job goes and only finished ones do |
| `BuildCleanup.OneMoreWouldNotFit` | internal/server/build_service.go:431-474 | If more than the overdue jobs go, one of them could not have stayed: a limit would be broken with it |
| `BuildCleanup.DueIsWhenOneIsOverdue` | internal/server/build_service.go:589-605 | The time to come back is the last at which none of the kept jobs is overdue; without one none ever will be |
| `BuildCleanup.CountLimitHolds` | internal/server/build_service.go:431-451 | What is left is at most the count limit or only unfinished jobs, and its finished part is within the byte limit |
| `BuildCleanup.BuildRemovalsForByteLimit` | internal/server/build_service.go:509-553 | Removes an oldest-first part so that the rest fits, and no longer fits with the last removal put back |
| `BuildCleanup.RemoveExtra` | internal/server/build_service.go:431-451 | Removes as many of the oldest as exceed the count limit, or all |
| `BuildCleanup.SplitFinished` | internal/server/build_service.go:419-430 | Overdue finished jobs are to be removed, other finished ones are candidates, unfinished ones neither |
| `BuildCleanup.NextBuildCleanupDue` | internal/server/build_service.go:589-605 | The earliest expiry among the kept jobs, if there is one |
| `FileJanitor.CleanupFilesByPolicy` | internal/serverapp/file_janitors.go:245-304 | For every outcome of the callback: expired files are tried first, then the oldest others until within the limit; count and bytes are those of exactly the successful removals; the next time due is the earliest expiry of what is kept and not in the past |
| `FileJanitor.FilesConserved` | internal/serverapp/file_janitors.go:262-290 | Every file is kept, removed, or was expired and could not be removed; none is lost or doubled |
| `FileJanitor.TrimReachesTheLimit` | internal/serverapp/file_janitors.go:272-290 | What is kept is within the limit, unless every unexpired file was tried and some removal failed |
| `FileJanitor.TrimConserves` | internal/serverapp/file_janitors.go:277-289 | The running total is the size of what is kept, and kept and removed make up the list |
| `FileJanitor.AgedKeepsOrder` | internal/serverapp/file_janitors.go:250-271 | Removals are tried oldest first |
| `FileJanitor.OldestFilesAreTried` | internal/serverapp/file_janitors.go:245-290 | The files tried for the byte limit are the oldest of those young enough, in order, and each only while the files left are over the limit; which files are too old depends on their age alone |
| `FileJanitor.DueIsWhenOneExpires` | internal/serverapp/file_janitors.go:292-301 | The time to come back is the last at which no kept file has expired; without one none ever will |
| `FileJanitor.TrimToLimit` | internal/serverapp/file_janitors.go:272-290 | The filter over the shared slice keeps what was not tried or could not be removed, in order, and stops trying once within the limit |
| `FileJanitor.RemoveExpired` | internal/serverapp/file_janitors.go:258-271 | Exactly the expired files are tried and none of them is kept |
| `FileJanitor.NextDue` | internal/serverapp/file_janitors.go:292-301 | The earliest expiry of the kept files |
| `FileJanitor.DueIsNotPast` | internal/serverapp/file_janitors.go:292-301 | Nothing kept has expired, so the time due is not before now |
| `RunnerLoop.RunnerServesSignals` | internal/cleanup/runner.go:49-142 | Along every run: callbacks started by triggers are at least the interval after the one before, and every signal waits in the channel, or a timer is armed within the interval, or a callback has started since |
| `RunnerLoop.TimerIsSetAsAsked` | internal/cleanup/runner.go:76-142 | Along every run: the timer is armed no later than the last callback asked for, or at once if that has passed, and never before its start; after a trigger that came too early also no later than one interval after the start; nothing is armed exactly if neither is so; and a signal waits exactly if somebody signalled since one was taken |
| `RunnerLoop.TakenTriggerStarts` | internal/cleanup/runner.go:122-132 | Along every run a trigger that is taken starts the callback if and only if there is no interval to keep or it is over since the last start |
| `RunnerLoop.WhatIsRemembered` | internal/cleanup/runner.go:49-142 | What those two speak of, event by event: which events start a callback, what the last one asked for, whether a trigger came too early since, whether a signal waits |
| `RunnerLoop.ArmedOnlyAdvances` | internal/cleanup/runner.go:76-100 | While no callback starts, an armed time only moves earlier |
| `RunnerLoop.ArmedNeverMovesLater` | internal/cleanup/runner.go:76-100 | The same for one event |
| `RunnerLoop.Runner.OnTrigger` | internal/cleanup/runner.go:122-132 | A trigger taken runs the callback at once or leaves a timer armed no later than the last run plus the interval |
| `RunnerLoop.Runner.OnTimer` | internal/cleanup/runner.go:133-134 | A firing timer runs the callback |
| `RunnerLoop.Runner.RunNow` | internal/cleanup/runner.go:102-117 | Disarms, runs, and arms again for the time asked for, at the earliest now; what that means along runs is `RunnerLoop.TimerIsSetAsAsked` |
| `RunnerLoop.Runner.ScheduleAt` | internal/cleanup/runner.go:76-100 | An armed timer is only brought forward |
| `RunnerLoop.Runner.Trigger` | internal/cleanup/runner.go:29-37 | A second signal before the first is taken is absorbed |
| `BuildLog.LogShowsTheFullText` | internal/server/build_service.go:615-656 | After any sequence of appends the log is a function of the full text alone |
| `BuildLog.ShowsTheEnd` | internal/server/build_service.go:630-656 | Of a text over the limit exactly the limit is shown: its end, after the marker if that fits |
| `BuildLog.AppendToBounded` | internal/server/build_service.go:630-656 | Truncating a truncated text again neither stacks markers nor loses recent bytes |
| `BuildLog.AppendLogWithLimit` | internal/server/build_service.go:630-656 | All of the text within the limit, else the marker and the last bytes, or only the last bytes when the marker does not fit |
| `BuildLog.BuildJob.AppendLog` | internal/server/build_service.go:615-622 | The job's buffer shows everything written so far |
| `Sampler.DurationSampler.Add` | internal/observability/recorder.go:324-341 | Clamps, converts to milliseconds and keeps the ring equal to the last limit samples |
| `Sampler.DurationSampler.HoldsWindow` | internal/observability/recorder.go:324-341 | The buffer holds exactly the last limit samples as a multiset |
| `Sampler.DurationSampler.Snapshot` | internal/observability/recorder.go:343-355 | p50, p95 and p99 are nearest-rank percentiles of the last limit samples, in ascending order |
| `Sampler.Percentile` | internal/observability/recorder.go:357-376 | The smallest sample with at least p percent of all samples at or below it; the extremes at 0 and 100 |
| `Sampler.NearestRankGrows` | internal/observability/recorder.go:343-355 | Higher percentiles are not smaller |
| `Sampler.NearestRankPermuted` | internal/observability/recorder.go:343-355 | Percentiles do not depend on the order of the samples |
| `PolicyPull.ClearFlagMeansUpToDate` | internal/server/control_plane_service.go:170-189 | In every interleaving of pulls, updates, resets and registrations: a device with a clear flag and no pull between mark and read has last read its effective policy, unless a read failed after a mark |
| `PolicyPull.StepKeepsInv` | internal/db/device_registry_admin.go:218-320 | Each statement or transaction keeps that invariant for every device |
| `PolicyPull.SwappedOrderLosesAnUpdate` | internal/server/control_plane_service.go:176-189 | With read and mark swapped, an update between them is lost |
| `PolicyPull.FailedReadLeavesDeviceBehind` | internal/server/control_plane_service.go:184-189 | A read that fails after the mark leaves the flag clear though nothing was read |
| `PolicyPull.UninterruptedPull` | internal/server/control_plane_service.go:170-189 | The three steps in a row are the whole call |
| `ControlPlane.RevisionsCount` | internal/server/admin_console_service.go:204-241 | Along every run of calls one at a time without a wrap, the committed updates of a device carry consecutive revisions, and the device and its override end with the last of them |
| `ControlPlane.SameExpectationTwiceMeansWrap` | internal/server/admin_console_service.go:208-215 | Two updates that name the same non-zero revision never both go through, whatever is called between them, unless the revision wrapped |
| `ControlPlane.CompareAndSet` | internal/server/admin_console_service.go:198-249 | One update with an expected revision goes through exactly if it names the current one; then the device must pull and only its policy has changed |
| `ControlPlane.UpdateAnswer` | internal/server/admin_console_service.go:198-249 | Every policy update: which of its errors it is answered with, each if and only if, and what an accepted one writes |
| `ControlPlane.RequestAnswer` | internal/server/admin_console_service.go:251-277 | Every action request: which error it is answered with, or the actions afterwards: the new one as the caller says and pending, those it replaces cancelled, all others as they were |
| `ControlPlane.NextRevisionIsNew` | internal/server/admin_console_service.go:212-215 | A revision given out is never zero, fits 64 bits and differs from the one before |
| `ControlPlane.RowTellsTheLastCalls` | internal/server/control_plane_service.go:71-209 | Along every run of calls a device's row shows its last registration's profile, its last heartbeat's session, whether a policy change or a pull came last, and the last policy set with its revision |
| `ControlPlane.AdminConsoleService.UpdateDevicePolicy` | internal/server/admin_console_service.go:198-249 | The whole effect and every error of a policy update or reset, an error after the commit included |
| `ControlPlane.AdminConsoleService.RequestClientAction` | internal/server/admin_console_service.go:251-277 | The whole effect and every error of an action request, a failing transaction included, as `ControlPlane.RequestAnswer` states them |
| `ControlPlane.ControlPlaneService.RegisterDevice` | internal/server/control_plane_service.go:71-114 | The whole effect of registering, first or again, and of its failing statements |
| `ControlPlane.ControlPlaneService.Heartbeat` | internal/server/control_plane_service.go:116-168 | Returns the newest sixteen pending actions and delivers exactly those; an error, that of the heartbeat row included, delivers nothing |
| `ControlPlane.ControlPlaneService.GetAssignedConfig` | internal/server/control_plane_service.go:170-209 | Clears the flag, then reads the effective policy; a failed read leaves the flag clear |
| `Registry.DeviceRegistry.Register` | internal/db/device_registry.go:101-175 | Registering again keeps the policy revision, the pull flag and the session; a failing statement changes nothing |
| `Registry.RegisteredRow` | internal/db/device_registry.go:101-175 | The row after a first and after a later registration, field by field; other rows stay |
| `Registry.DeviceRegistry.UpdateHeartbeat` | internal/db/device_registry.go:177-223 | Records the session of a known device; errors otherwise, and on a failing statement, without changing anything |
| `Registry.SessionAndMark` | internal/db/device_registry.go:177-223 | A heartbeat stores its session and a mark clears the flag, and neither changes anything else |
| `Registry.DeviceRegistry.MarkPolicyPulled` | internal/db/device_registry.go:298-309 | Clears the flag of a known device, errors otherwise |
| `Registry.DeviceRegistry.UpsertPolicy` | internal/db/device_registry_admin.go:218-286 | Policy row, revision and flag change together, or nothing does; reading the row back may fail after the commit |
| `Registry.DeviceRegistry.ResetPolicy` | internal/db/device_registry_admin.go:288-320 | The policy row goes, revision and flag change together, or nothing does |
| `Registry.PolicyRows` | internal/db/device_registry_admin.go:218-320 | Setting or resetting a policy changes that device's override, revision and flag and nothing else |
| `Registry.DeviceRegistry.EnqueueAction` | internal/db/device_registry_admin.go:322-381 | Cancels similar pending actions when asked and adds one pending action, or, when a statement or the commit fails, nothing; `Registry.EnqueueAnswer` states the rows |
| `Registry.EnqueueAnswer` | internal/db/device_registry_admin.go:322-381 | A request that does not replace leaves every earlier action as it is and adds exactly its own id to the pending ones of its device; one that does cancels the pending ones of its device and kind; the new row carries the caller's device, kind, payload and time |
| `Registry.DeviceRegistry.ListPendingActions` | internal/db/device_registry_admin.go:600-651 | The newest pending actions of one device, as many as fit, newest first |
| `Registry.PageIsLatest` | internal/db/device_registry_admin.go:600-651 | No action on a page was requested before one that is pending and not on it, and a heartbeat's page has at most sixteen |
| `Registry.DeviceRegistry.MarkActionsDelivered` | internal/db/device_registry_admin.go:391-411 | Exactly the named pending actions become delivered |
| `Actions.NoActionReturnedTwice` | internal/server/control_plane_service.go:137-151 | In every interleaving, heartbeats that do not overlap never return the same action, and none returns one twice |
| `Actions.OverlappingHeartbeatsRepeat` | internal/server/control_plane_service.go:137-151 | Heartbeats that both list before either marks return the same actions |
| `Actions.StatusNeverGoesBack` | internal/db/device_registry_admin.go:322-411 | Along every run a status leaves pending at most once, for delivered or cancelled, and for good |
| `Actions.StatusMovesForward` | internal/db/device_registry_admin.go:322-411 | The same for one statement |
| `Actions.ActionTellsItsStory` | internal/db/device_registry_admin.go:322-411 | Along every run a pending action leaves the queue only through the first heartbeat that marks a page with it or the first replacing request of its device and kind; its row then shows which and when and is otherwise as requested |
| `Actions.StepOfAnAction` | internal/db/device_registry_admin.go:322-411 | One statement changes an action only if it is pending and the statement delivers or cancels it, and then exactly its status and time |
| `Actions.ReplacingLeavesOne` | internal/db/device_registry_admin.go:342-372 | A replacing request leaves its own action as the only pending one of that device and kind and touches no other |
| `Actions.AllDelivered` | internal/server/control_plane_service.go:137-151 | n pending actions are all delivered after ceil(n/16) heartbeats at any times |
| `Actions.HeartbeatsDrain` | internal/server/control_plane_service.go:137-151 | Each heartbeat delivers sixteen pending actions or all that are left |

## Left out

- Conflict-marked names: cleanup goes by name only, so a tracked file whose own name carries the mark can be deleted too; the claims about disk bytes exclude exactly such names.
- Interleavings with renames as one sequential order, and agreement of disk and tables beside a rename whose ends lie above or below a path of another request at work, beyond the interleaving that shows neither holds; runs of whole requests include all renames.
- Serializability.EveryInterleavingIsSerial: does not cover changes of conflict-marked names, because another handler's cleanup may delete such a file between two of their steps, nor the background janitor.
- The directory listing of the conflict cleanup and the walk of its sweep are complete; only their removals may fail. The background janitor is any deletion of marked files between requests.
- SQLite checks uniqueness row by row inside one UPDATE; for a tree without stored case twins only a rename whose ends lie one below the other could collide on the way, and the disk refuses such a rename first. With a twin, as for a target below a case variant of the source, SQLite may abort a rename that the model commits.
- Versions and counters are unbounded; the 64-bit limits of the counters are not modelled. Offsets, sizes and policy revisions are 64-bit.
- The foreign key on `version_blob` is not enforced by SQLite as the server opens it, and is not modelled.
- The `client_id` and request id columns, and file modes; times are inputs, and every change of a file stamps it.
- Database reads before a handler changes anything that fail: the request fails and nothing has changed.
- Letter case is folded for ASCII only, in conflict marks too.
- The store root itself, path normalisation and symbolic links.
- The size that the system reports for a directory is one constant.
- Reads that only copy data out: ListDir, Stat, ReadFile, ReadFileRange, GetFileMeta, ListChangedFiles, AllMetas.
- AppendSnapshot and Append, which take a version from the caller; no service calls them and they would break density.
- Descriptive device columns are one string; sync, mount and diagnostics reports, the diagnostics retention and the console's derived states are left out.
- UpdateDevicePolicy under concurrent administrators: reading and writing are separate transactions there, so the claims about expected revisions speak of requests run one at a time.
- Builds themselves: a build command is a step that succeeds or fails and is assumed to return. Sizes of work directories are an input.
- The zero time is a missing value, so an expiry that falls on Go's zero time is not modelled.
- Hot-path and range-burst counting in the recorder; they would add counters without a further invariant.
- Backup and checkpoint timing, migrations, restore, join bundles, gRPC, TLS, service control and the desktop workbench.
- FileJanitor.CleanupFilesByPolicy: does not follow an expired file whose removal failed, because the code drops it from the list, its bytes and its expiry included.
