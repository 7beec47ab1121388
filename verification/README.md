# Verified models of the agent-memory-fabric installers, extractor and operator log

Dafny models of four programs of this repository, with proofs of what they promise:

- `deploy/amf-install-release.mjs` publishes a release file by file over a live tree, keeps an undo
  journal, replaces the manifest last and replays the journal backwards on any failure
  (`paths.dfy`, `filesystem.dfy`, `release_spec.dfy`, `empty_parents.dfy`, `rollback_steps.dfy`,
  `rollback_names.dfy`, `install_steps.dfy`, `tree_back.dfy`, `release_installer.dfy`, `release_plan.dfy`,
  `release_install.dfy`, `release_examples.dfy`, `release_history.dfy`, `release_again.dfy`, `deploy_lock.dfy`,
  `open_files.dfy`, `config_backup.dfy`);
- `scripts/amf-install-host-admin.mjs` plans and applies an installation with compare-and-swap writes and
  an ownership manifest written last (`canonical.dfy`, `canonical_equality.dfy`, `systemd_quote.dfy`,
  `unit_template.dfy`, `host_admin.dfy`, `host_admin_runs.dfy`, `host_admin_request.dfy`, `host_admin_digest.dfy`);
- `scripts/amf-conversation-memory-extractor.mjs` runs crash-resumable ticks against an idempotent server,
  and evaluates a quality sample whose report a gate checks later (`extractor.dfy`, `extractor_runs.dfy`,
  `quality.dfy`);
- `scripts/amf-audit-retention-gc-operator.mjs` writes a log ahead of and after destructive batches
  (`operator_log.dfy`).

## How the models work

The release installer is a class over a mutable `Disk`: the live tree, the rollback tree of the staging
directory, the unpacked archive, and the rollback trees that earlier calls have left behind. Every
file-system call advances a clock, and an arbitrary function `fault` of the clock says which calls fail; a
failed call has no effect, except that a failed write leaves arbitrary content behind and a failed removal
of the staging directory may have removed any part of it. Two more functions of the clock say when a write
finds the disk full and when the mode of the release root cannot be set. Faults during the rollback are included, and so
are the hooks with which the installer's tests stop it. A rename moves a file, or a directory with all that
is in it. A ghost trace records the two trees after every change, the removal of the stage included, so a
statement about every element of the trace is a statement about every instant at which the process could
die.

The steps of the installer are methods; what they do to the values of the trees is in lemmas about values
(`InstallSteps` forwards, `RollbackSteps` and `TreeBack` backwards, `RollbackNames` for the names in the
rollback tree). What the checks before the first mutation establish is `Job.Admitted`, and
`ReleasePlan.PlanAdmits` proves that they do; nothing else is asked of a release.

The extractor tick is a method tied to the list of its effects; stopped anywhere, it has carried out a
prefix of that list, and only being stopped keeps it from carrying out all of it. A persisted state is read back
as JSON gives it back, so a confidence that is NaN comes back as null. The host installer, stopped anywhere, has
carried out a prefix of its planned writes.
The deploy lock and the operator log are automata over events, in any interleaving and with any failures.

Hypotheses, in the programs' own terms:

- Only the installer changes the release tree while it holds the deploy lock.
- The name drawn for the temporary manifest (a random UUID) is new (`ReleasePlan.FreshName`).
- SHA-256 has no collisions; digests are 64 lower-case hexadecimal characters.
- A change of a file's contents changes its modification or change time, and old times do not come back
  (`OpenFiles.Stamped`).
- A delete batch that fails has been rolled back, and any other failed system call has had no effect.
- A line of the operator log reaches the file as a whole or not at all.
- The configuration of the extractor does not change between ticks, and the server's answers have the declared
  shapes: an identity and a revision that the loader accepts. The session's id is not among these; the tick
  persists it unchecked.

Where a promise does not hold of the code, the model keeps the code and states the exact condition, and gives
an input at which it fails. For the release installer `release_examples.dfy` and `release_again.dfy` give live
trees and archives that pass all checks, with the plan that the installer makes of them and the calls carried
out:

- Backup names can collide: a shipped `stale/x` with a stale `x`, and a shipped `manifest/previous.json`
  with the manifest (lines 504, 513 and 518). The later backup then replaces the earlier one, and a
  rollback that reports success does not bring the first original back. A completed rollback restores every
  original if and only if its journal has lost no backup (`RestoresUnlessLost`); it can lose one only of
  originals that are `Clobbered` (`LostIsClobbered`), and it loses all of those if it had got past the manifest
  (`ClobberedIsGone`). `LoseFile` is such a run.
- Without any fault or hook an accepted release is committed if and only if no backup is `Obstructed` and
  the clean-up is not `Blocked` (the contracts of `Run` and `InstallRelease`). A backup is obstructed if an
  original's backup name lies above another backup, say a shipped `stale/x` that is already on disk with a
  stale `x/y`, or a file called `manifest`, which is in the way of `manifest/previous.json` from the second
  release on that ships it; or if a directory has to be moved to a name that is taken. The clean-up is blocked
  if a shipped file takes the place of a directory above a stale entry. In both cases the release is rolled
  back (`FailWithoutFault`).
- A stale name `a` that is no longer on disk when the new release ships `a/b` passes all checks; the stale
  step finds the new directory `a`, moves it away, and the installation reports success without the file
  (`SwallowFile`). After a success a shipped file is there if and only if it lies under no stale name
  (`InstalledIn`). If every listed file is on disk no such name exists (`PlanLayers`), and that stays so
  through any history whose rollbacks lost nothing (`NextIsLayered`).
- The temporary manifest is left behind if and only if it has been created and one of the next three calls fails,
  the write for want of space included (lines 520-532, `PublishManifest`). `LeaveTemporary` is such a call, on a
  full disk.
- If `enforceDeploymentRoot` fails in the `finally` block (line 567), its error replaces the one that says
  the rollback failed: the stage is kept, with the originals in it, but the lock is removed. A rollback that
  was stopped keeps everyone out if and only if that call succeeds, or the installer dies before it removes
  the lock, or the removal fails (`StoppedRollback`). `LoseLock` is a call after which the lock is gone and the
  originals are safe only together with the stage.
- Installing A, B and A again gives the tree of A if and only if all files of A were there after the first A,
  and none of the files that only B ships (`BackToA`). `InstallAgain` carries out the three calls on a host with
  such a file.
- What another process does to a target between the last comparison of an atomic write and its rename is lost,
  if and only if it changes the target (`AtomicWrite`). `LoseChange` is such a write.
- `quote` leaves the dollar sign alone, so systemd expands `$$` and `${NAME}` in a path, and takes a whole word
  `$NAME` for a list of arguments. The arguments come back exactly, in every environment, if and only if no path
  contains such a piece or is such a word (`CommandLineRoundTrip`, `DollarsAreLost`). The check for unresolved
  placeholders refuses the unit if and only if a path contains one of its own, or the text around the command
  line still does (`RefusedExactly`, `PlaceholderIsRefused`).
- Resuming can fail for good on a state that the extractor has made itself. `validateClaims` lets a confidence
  pass that is no number; JSON writes the NaN as null, in the claim and in the record, and reading it back gives the
  claim 0.5, but the record no score. Over any schedule resuming throws if and only if a model call is pending, or
  the entry is the matching one's and was persisted by a fresh tick that got such a confidence in a claim to be
  proposed and was stopped before it had proposed everything (`ResumeThrowsExactly`). Nothing is persisted or
  sent then as long as page and triage lead to that session (`UnscoredBlocks`); `HighConfidenceBlocks` is this at
  the confidence "high".
- A tick leaves a state that stops every later tick if and only if it was stopped while its model call was pending,
  or between that and its end in a session whose id the loader refuses (`LeavesUnrunnable`).
- The daily token limit is kept, wherever ticks stop, if no model call uses more than is reserved for it
  (`NeverOverspent`). Otherwise it is exceeded if and only if the settled call takes the day's use beyond it
  (`OverspentIff`, `OneCallOverspends`).
- An entry of the extractor that waits to be proposed is dropped if the triage changes its verdict, or if
  the page leads elsewhere and the gates let the new session in (`FateIsExact`, `RejectedIsLost`).
- The operator log can hold a `start` line followed by a `refused` line: if and only if the start line was
  written without being confirmed, and the refusal was written (`RetractedExactly`, `RetractStart`). On a call
  that throws it can say `completed`: if and only if that line was written without being confirmed
  (`RunPhaseA`, `CompleteAndThrow`).

## Model

| member | source | states |
|---|---|---|
| Paths.SplitOfJoin | deploy/amf-install-release.mjs:73-77 | joining slash-free segments loses nothing: splitting the joined name gives the segments back |
| Paths.SortSorts | deploy/amf-install-release.mjs:470 | sorting a listing keeps its elements and makes the joined names strictly ascending in the order of UTF-16 code units |
| Paths.PrefixIsLess | deploy/amf-install-release.mjs:178 | in that order a name comes before those below it |
| Paths.LessIsByUnits | deploy/amf-install-release.mjs:178 | the order on names is that of their UTF-16 code units, surrogate pairs included, compared one by one from the left |
| Paths.NormalizerFixesExactlyTheCodePaths | deploy/amf-install-release.mjs:68-84 | the entry normaliser is the identity on a normal path exactly if the path has no NUL and does not begin with a protected name, and refuses it otherwise |
| Paths.NormalizerYieldsCodePaths | deploy/amf-install-release.mjs:68-78 | for arbitrary text, whatever the normaliser yields is the joined form of a release path |
| Paths.NormalizerIdempotent | deploy/amf-install-release.mjs:68-78 | normalising twice is normalising once |
| Paths.NormalizerDecides | deploy/amf-install-release.mjs:68-78 | of a path of ordinary segments it says: unsafe with a NUL, persistent below `.env`, `.env.runtime`, the manifest, `runtime` and `var`, and the path itself otherwise |
| Paths.NormalizerTrims | deploy/amf-install-release.mjs:69-70 | one leading `./` and one final slash make no difference, and the root itself is no entry |
| Paths.NormalizerRefuses | deploy/amf-install-release.mjs:73-75 | an entry with an empty, `.` or `..` segment is unsafe, whatever its first segment |
| Paths.WithinIsPrefix | deploy/amf-install-release.mjs:63-66 | the textual containment test over `relative` holds exactly if the parent's segments are a prefix of the candidate's |
| Paths.NormalizedEntryStaysInside | deploy/amf-install-release.mjs:63-84 | every normalised entry joined to a root passes the containment test |
| ReleaseSpec.BackupCollisions | deploy/amf-install-release.mjs:504-518 | two targets share a backup name in two ways only, and always one of an earlier with one of a later step |
| ReleaseSpec.LostIsClobbered | deploy/amf-install-release.mjs:330-338 | a journal loses a backup only to such a collision, directories moved aside included |
| ReleaseSpec.ClobberedIsLost | deploy/amf-install-release.mjs:330-338 | and a complete journal loses every original that has one |
| ReleaseSpec.NothingClobbered | deploy/amf-install-release.mjs:504-518 | there is no collision exactly if every original has a backup name of its own |
| ReleaseSpec.RestoresUnlessLost | deploy/amf-install-release.mjs:340-366 | for every run: a completed rollback gives back every original, content and inode, if and only if the journal lost no backup |
| ReleaseSpec.RollbackRestores | deploy/amf-install-release.mjs:340-366 | without a collision a completed rollback leaves every path but the temporary manifest as it was, content and inode |
| ReleaseSpec.RollbackRestoresDirectories | deploy/amf-install-release.mjs:350-365 | every directory that held a file is back, and no directory is there that was not there before |
| ReleaseSpec.ClobberedIsGone | deploy/amf-install-release.mjs:340-366 | with one, once everything had been moved aside, the clobbered original is missing after the completed rollback |
| ReleaseSpec.TreeKeepsClear | deploy/amf-install-release.mjs:511-514 | a directory moved aside to a free name takes no original's backup name and lies above none |
| ReleaseSpec.IdentitiesTell | deploy/amf-install-release.mjs:427-434 | two identity records are equal exactly if each of the five persistent paths has kept its inode |
| EmptyParents.CollectParents | deploy/amf-install-release.mjs:369-376 | the ancestor-walking loops terminate with exactly the proper ancestors of the entries below the root |
| EmptyParents.LongestFirstSorts | deploy/amf-install-release.mjs:377 | the sort by descending length keeps the paths and orders them |
| EmptyParents.EmptyIffRemovable | deploy/amf-install-release.mjs:377-383 | when the removable directories below it are gone, an ancestor is empty exactly if nothing below it was a file or another directory |
| EmptyParents.PassComplete | deploy/amf-install-release.mjs:377-383 | after one longest-first pass no removable directory is left and no ancestor that is left is empty |
| EmptyParents.RemoveEmptyParents | deploy/amf-install-release.mjs:368-384 | one pass removes exactly the removable ancestors, under any faults nothing else; it stops early only on a fault or where a file has taken an ancestor's place |
| RollbackSteps.HeldIsSafe | deploy/amf-install-release.mjs:340-353 | records applied, half undone or undone in any mixture leave every original with its own backup name at its target or in the rollback tree |
| RollbackSteps.MovedBack | deploy/amf-install-release.mjs:350-353 | moving a backup home undoes its record and disturbs no other, overwritten backups included |
| RollbackSteps.TreeMovedBack | deploy/amf-install-release.mjs:350-353 | moving a directory home undoes its record and disturbs no other |
| RollbackSteps.FullyUndone | deploy/amf-install-release.mjs:340-358 | when all records are undone, the files are the original ones less those whose backup was overwritten |
| RollbackSteps.CreatedIsEmpty | deploy/amf-install-release.mjs:359-364 | after a full replay, each created directory is empty when its turn comes |
| TreeBack.TreeComesBack | deploy/amf-install-release.mjs:350-353 | the directory that the stale step had moved aside comes back with just what the run had put in it, and every original stays safe |
| RollbackNames.FileInTheWay | deploy/amf-install-release.mjs:321-328 | a file on the way to a backup is the backup of an original that obstructs it |
| RollbackNames.DirectoryInTheWay | deploy/amf-install-release.mjs:330-338 | a directory in the place of a backup was made for a backup below it |
| RollbackNames.TakenIsCrowded | deploy/amf-install-release.mjs:330-338 | the name for a directory is taken only by originals or by a directory that is not empty |
| RollbackNames.NothingObstructed | deploy/amf-install-release.mjs:501-519 | once everything has been moved aside, nothing was obstructed: the condition is exact |
| InstallSteps.StaleFound | deploy/amf-install-release.mjs:511-514 | the stale step finds a directory at a stale name exactly if a shipped path lies below it and no other stale name above |
| InstallSteps.SweptAll | deploy/amf-install-release.mjs:511-514 | after the stale step nothing is left at a stale name, and a shipped file is there exactly if it lies under none |
| ReleaseInstaller.InstallRun.constructor | deploy/amf-install-release.mjs:439-443 | a run begins with an empty journal and satisfies its invariants |
| ReleaseInstaller.InstallRun.EnsureReleaseParents | deploy/amf-install-release.mjs:308-319 | creates the missing directories above an entry, records each of them and changes no file; it fails only on a fault |
| ReleaseInstaller.InstallRun.EnsurePrivateParents | deploy/amf-install-release.mjs:321-328 | prepares the directories above a backup without disturbing other backups; it refuses only if an original obstructs it |
| ReleaseInstaller.InstallRun.MoveForRollback | deploy/amf-install-release.mjs:330-338 | the file or directory, if any, is in the rollback tree with all that was below it, and the journal has one more record that says so; it fails only on a fault or an obstruction |
| ReleaseInstaller.InstallRun.PublishFiles | deploy/amf-install-release.mjs:501-508 | every shipped file is published, there, and journaled in order, or the run stops with its invariants intact |
| ReleaseInstaller.InstallRun.RemoveStale | deploy/amf-install-release.mjs:511-514 | nothing is left at a stale name, whatever was there is journaled, and a shipped file has gone exactly if it lay under one |
| ReleaseInstaller.InstallRun.PublishManifest | deploy/amf-install-release.mjs:517-533 | the new manifest is in place and the old one in the rollback tree, or the run stops with its invariants intact; on the fault schedule: if the creation of the temporary file is reached, the step succeeds exactly if none of the four calls from there on fails, and leaves the temporary file exactly if its creation works and one of the other three fails |
| ReleaseInstaller.InstallRun.WriteTemporary | deploy/amf-install-release.mjs:519-531 | the temporary manifest is written, and the step fails exactly if its creation is hit by a fault, or its write by a fault or a full disk, or its close by a fault; it is left exactly in the latter cases |
| InstallSteps.PersistentUntouched | deploy/amf-install-release.mjs:427-434 | at every point of a run the identities of the persistent paths are the original ones |
| ReleaseInstaller.InstallRun.CheckPersistent | deploy/amf-install-release.mjs:536-538 | the identity check never reports a change: only a fault or a release root whose mode cannot be set makes it fail |
| InstallSteps.FilesInstalled | deploy/amf-install-release.mjs:500-533 | after all steps the files are: shipped paths new unless they lie under a stale name, stale paths absent, everything else untouched |
| InstallSteps.JournalComplete | deploy/amf-install-release.mjs:504-518 | after the manifest step the journal covers everything that had to be moved aside |
| ReleaseInstaller.InstallRun.CleanUp | deploy/amf-install-release.mjs:545 | the tree is then the installed one, emptied parents removed; it succeeds only if no shipped file blocks it, and fails only on a fault or such a file |
| ReleaseInstaller.InstallRun.UnlinkPublished | deploy/amf-install-release.mjs:344-349 | only the published file of the record is removed, and every original stays safe |
| ReleaseInstaller.InstallRun.RestoreRecord | deploy/amf-install-release.mjs:342-356 | one record is undone, or left half undone with every original still safe |
| ReleaseInstaller.InstallRun.RemoveCreated | deploy/amf-install-release.mjs:359-365 | after a clean replay all created directories are gone |
| ReleaseInstaller.InstallRun.RestoreJournal | deploy/amf-install-release.mjs:340-366 | a replay without an error restores the original files less the lost ones and removes every created directory; an error means a fault or the hook, and the hook always stops a replay with a record; in any case the originals are safe at the end |
| ReleaseInstaller.InstallRun.Run | deploy/amf-install-release.mjs:498-565 | under every fault schedule and every set of hooks, rollback included: every state on the way and the last one is safe, protected paths never change, a commit leaves the installed tree, a completed rollback the original one, a commit means that nothing was obstructed or blocked, and the reasons for stopping are exhaustive |
| ReleasePlan.StepwiseIsStrict | deploy/amf-install-release.mjs:178 | comparing neighbours only rules out disorder and repetition at any distance |
| ReleasePlan.AcceptedManifest | deploy/amf-install-release.mjs:162-182 | any manifest that is accepted, under either schema, lists release paths, strictly ascending, without repeats |
| ReleasePlan.ManifestAccepts | deploy/amf-install-release.mjs:80-182 | a manifest is accepted as a list of paths exactly if it is one: ascending names of release paths, under v2 spelled exactly and each with 64 lower-case hexadecimal digits, under v1 in any spelling |
| ReleasePlan.WrittenReadsBack | deploy/amf-install-release.mjs:472-526 | the manifest written for a sorted release is accepted and reads back as exactly that release |
| ReleasePlan.WrittenSays | deploy/amf-install-release.mjs:472-527 | it says the v2 schema, the revision, and each file in order with its own digest |
| ReleasePlan.SafeParentsSuffice | deploy/amf-install-release.mjs:133-141 | walking down the existing parents detects a file anywhere above an entry |
| ReleasePlan.CurrentIsSortedListing | deploy/amf-install-release.mjs:469-472 | sorting first and normalising afterwards gives the sorted listing of the archive's files |
| ReleasePlan.PlanIff | deploy/amf-install-release.mjs:427-479 | a plan is made exactly if the persistent paths are there, the previous manifest is accepted, every archive name is taken by the normaliser and none twice, the required files are shipped and both trees fit; it publishes the sorted listing and removes what the manifest lists besides |
| ReleasePlan.RefusalMeans | deploy/amf-install-release.mjs:427-478 | each refusal points at its cause in the live tree or the archive; a missing persistent path comes first, the previous manifest second |
| ReleasePlan.PlanAdmits | deploy/amf-install-release.mjs:427-479 | a plan that passes all checks satisfies everything that the mutation relies on |
| ReleasePlan.PlanLayers | deploy/amf-install-release.mjs:477-479 | if every listed file is on disk, no stale name lies above a shipped one |
| ReleaseInstall.Mutate | deploy/amf-install-release.mjs:498-570 | the stage is removed only after a commit or a completed rollback; after a stopped rollback it is kept with the originals safe, and the report is replaced exactly if the next call fails; at every instant the originals are safe or the installation is finished |
| ReleaseInstall.InstallUnlocked | deploy/amf-install-release.mjs:392-570 | a refused or dry call changes nothing; without a fault the answer is the one the checks determine, and a plan is committed exactly if no hook stops it, nothing is obstructed or blocked, the manifest finds room and the mode of the root can be set |
| ReleaseInstall.InstallRelease | deploy/amf-install-release.mjs:572-593 | the same under the lock: a held lock is never touched; after a stopped rollback lock and stage stay, or the clean-up failed and the lock stays exactly if its removal failed too; stages that earlier calls left are never touched |
| ReleaseInstall.RestoredIsSafe | deploy/amf-install-release.mjs:553-569 | once a rollback is complete, the originals are safe without the rollback tree |
| ReleaseInstall.StuckKeepsOriginals | deploy/amf-install-release.mjs:553-569 | after a stopped rollback every original with a backup name of its own is at its name or at that backup name, byte for byte, and files the installer has nothing to do with are untouched |
| ReleaseExamples.ScenePlan | deploy/amf-install-release.mjs:441-479 | the checks accept each of the releases below, and give this plan |
| ReleaseExamples.ClobberIsAccepted | deploy/amf-install-release.mjs:501-518 | an accepted release that clobbers an original, with nothing obstructed |
| ReleaseExamples.LoseFile | deploy/amf-install-release.mjs:534-565 | its run, stopped after the manifest: the rollback is complete, and the original is gone |
| ReleaseExamples.SwallowFile | deploy/amf-install-release.mjs:511-545 | an accepted release whose call succeeds without fault or hook, and a shipped file is not there |
| ReleaseExamples.ObstructIsAccepted | deploy/amf-install-release.mjs:321-338 | an accepted release that ships a file called manifest once more is obstructed |
| ReleaseExamples.BlockIsAccepted | deploy/amf-install-release.mjs:368-384 | an accepted release whose clean-up is blocked |
| ReleaseExamples.FailWithoutFault | deploy/amf-install-release.mjs:498-565 | their calls, without fault or hook, end in a completed rollback |
| ReleaseExamples.LeaveTemporary | deploy/amf-install-release.mjs:520-565 | an accepted release on a full disk: the call ends in a completed rollback, and the temporary manifest is still there |
| ReleaseExamples.LoseLock | deploy/amf-install-release.mjs:536-592 | an accepted release whose root's mode cannot be set, with the rollback stopped: the call ends without the lock, the stage is kept, and the originals are safe only with it |
| ReleaseHistory.CallFollows | deploy/amf-install-release.mjs:572-593 | every call that does not end in a failed rollback is a step of a history |
| ReleaseHistory.CommittedManifest | deploy/amf-install-release.mjs:519-533 | after a success the manifest on disk is accepted, has the v2 schema and the revision installed, and lists exactly the release, entry by entry with the digest of the shipped content; the files are in place exactly if they lie under no stale name |
| ReleaseHistory.StaleIsGone | deploy/amf-install-release.mjs:511-514 | what the previous manifest listed and the release does not ship is gone, as a file and as a directory |
| ReleaseHistory.ManifestTracks | deploy/amf-install-release.mjs:162-182 | after any history of successes, refusals and rollbacks the manifest on disk lists exactly the last successful release, strictly ascending |
| ReleaseHistory.NeverShippedKept | deploy/amf-install-release.mjs:500-565 | a file that no release ever shipped keeps inode and bytes through any history |
| ReleaseHistory.PersistentKept | deploy/amf-install-release.mjs:36 | `.env`, `.env.runtime`, `runtime` and `var`, with all that is below them, keep inodes and bytes through any history |
| ReleaseHistory.DigestsStay | deploy/amf-install-release.mjs:97-104 | through any history of successes, refusals and rollbacks, lossy ones included, every file that the manifest lists and that is on disk has the digest on record |
| ReleaseHistory.NextIsLayered | deploy/amf-install-release.mjs:477-514 | while no rollback loses a file, every listed file stays on disk and every accepted plan is layered |
| ReleaseHistory.SecondIsComplete | deploy/amf-install-release.mjs:469-514 | when A is installed again after B, all its files are in place, whatever had been missing before |
| ReleaseHistory.BackToA | deploy/amf-install-release.mjs:469-533 | installing A, B, A gives the bytes of installing A exactly if all files of A were in place after the first A and no file that only B ships was on disk, and a manifest with A's list |
| ReleaseAgain.InstallOn | deploy/amf-install-release.mjs:572-593 | on a host with an installed release, a plain release is installed and the call is a step of a history |
| ReleaseAgain.InstallAgain | deploy/amf-install-release.mjs:469-533 | the three calls carried out on a host with a file that only B ships: all succeed, and the file is not there after the second A |
| DeployLock.AlwaysExclusive | deploy/amf-install-release.mjs:577-593 | in any interleaving of installers at most one is between taking and releasing the lock, and then the lock exists |
| DeployLock.SectionsDisjoint | deploy/amf-install-release.mjs:577-593 | between two operations of one installer on the release tree there is none of another |
| DeployLock.ContenderKeepsOut | deploy/amf-install-release.mjs:578-583 | an installer that finds the lock leaves it to its holder, and in no run does it work on the release tree or remove the lock afterwards |
| DeployLock.OnlyHolderRemoves | deploy/amf-install-release.mjs:590-592 | the lock disappears only when its one holder removes it |
| DeployLock.OrphanedForGood | deploy/amf-install-release.mjs:584-592 | once the lock is there without a holder, it stays and nobody works on the release tree again |
| DeployLock.StoppedRollback | deploy/amf-install-release.mjs:553-593 | a stopped rollback keeps everyone out for good exactly if enforceDeploymentRoot succeeds after it, or the installer dies before it removes the lock, or the removal fails; otherwise the next installer gets in |
| DeployLock.OtherEnds | deploy/amf-install-release.mjs:566-593 | after a commit, a completed rollback or a refusal the installer removes the lock next, and unless it dies or the removal fails the next one gets in |
| DeployLock.KilledHolder | deploy/amf-install-release.mjs:577-593 | a holder that dies leaves the lock to nobody: no one works on the release tree again |
| DeployLock.DieAtWork | deploy/amf-install-release.mjs:577-593 | a run in which that happens |
| DeployLock.NextGetsIn | deploy/amf-install-release.mjs:567-593 | a run in which the next installer works on the release tree after a rollback was stopped |
| OpenFiles.WriteAll | deploy/amf-install-release.mjs:198-206 | the whole buffer is appended however short the writes; an error leaves a prefix and means a failing or idle call |
| OpenFiles.CopyOpenFile | deploy/amf-install-release.mjs:244-274 | for every schedule of short reads and writes and of changes to the file, a copy without an error is exactly what the file held when it was inspected; if the calls work it fails exactly if another file is opened, or one with several links, or the time stamps have changed by its last call |
| ConfigBackup.Inspection.AddFile | deploy/amf-install-release.mjs:216-223 | a file is added exactly if it is ordinary and the totals stay within the limits; each error says which of these it was |
| ConfigBackup.Inspection.Walk | deploy/amf-install-release.mjs:224-237 | the walk succeeds exactly if all it meets is ordinary and the totals fit; the entries are then the listing and the counters the true totals |
| ConfigBackup.CleanIff | deploy/amf-install-release.mjs:216-236 | a tree passes exactly if nothing in it outside the hidden directory is a link, a device or a file with a second name |
| ConfigBackup.InspectConfiguration | deploy/amf-install-release.mjs:212-242 | it succeeds exactly if `.env`, `.env.runtime` and everything in `runtime` outside `runtime/m4` are ordinary and the totals fit; each error says what did not |
| ConfigBackup.ListsEverything | deploy/amf-install-release.mjs:227-236 | whatever the tree holds outside `runtime/m4` is listed |
| ConfigBackup.ListsNothingElse | deploy/amf-install-release.mjs:227-236 | every entry listed is in the tree and outside `runtime/m4` |
| ConfigBackup.ListedOnce | deploy/amf-install-release.mjs:227-236 | no path is listed twice |
| ConfigBackup.ParentsFirst | deploy/amf-install-release.mjs:224-236 | every entry's directory is listed before it |
| ConfigBackup.InventoryOrdered | deploy/amf-install-release.mjs:238-241 | the whole inventory has both properties |
| ConfigBackup.CreateBackup | deploy/amf-install-release.mjs:276-291 | a backup without an error holds exactly the listed directories and files, each file with the bytes the inspection saw; if nothing changes and the calls work there is no error |
| ConfigBackup.BackUpConfiguration | deploy/amf-install-release.mjs:212-291 | inspection and copy together: without an error the backup is exactly what the three sources held outside `runtime/m4`, nothing more and nothing less, within the limits |
| Canonical.RoundTrip | scripts/amf-install-host-admin.mjs:14 | whatever text follows, the parser reads the printed value back with its keys in order and stops at its end |
| Canonical.TextUndone | scripts/amf-install-host-admin.mjs:14 | unescaping inverts JSON string escaping (section 7 of RFC 8259) up to the closing quote |
| Canonical.NoShorterSpelling | scripts/amf-install-host-admin.mjs:14 | a string is spelled as shortly as the parser allows: no text that reads as the same string is shorter than its escaped form |
| Canonical.DigitsUndone | scripts/amf-install-host-admin.mjs:14 | reading digits inverts printing an exponent |
| Canonical.NumberRoundTrip | scripts/amf-install-host-admin.mjs:14 | every finite number, in each of the five forms in which Number::toString writes it, is read back to its digits and exponent |
| Canonical.NumeralForm | scripts/amf-install-host-admin.mjs:14 | a number has an exponent exactly if its point is beyond 21 places or six zeros, then with its sign; a point exactly if digits follow it; and no digit more than that takes |
| Canonical.ByKeyMaps | scripts/amf-install-host-admin.mjs:14 | sorting the keys first and printing the values afterwards is the same as the other way round |
| CanonicalEquality.SameTextIffSameValue | scripts/amf-install-host-admin.mjs:14 | two values, numbers of every size included, print alike exactly if they are equal up to the order of keys at every depth |
| CanonicalEquality.OrderedPrints | scripts/amf-install-host-admin.mjs:14 | putting the keys in order does not change the text |
| CanonicalEquality.SameDigestIffSamePlan | scripts/amf-install-host-admin.mjs:170-190 | with a hash without collisions, equal digests mean equal JSON values up to the order of keys, and conversely |
| SystemdQuote.ThreePassesAreOne | scripts/amf-install-host-admin.mjs:107 | the three replacements in their order are one pass over the characters |
| SystemdQuote.QuotedReads | scripts/amf-install-host-admin.mjs:107 | reading a quoted value undoes the backslash escapes and stops at its closing quote |
| SystemdQuote.DoubledUndone | scripts/amf-install-host-admin.mjs:107 | specifier expansion undoes the doubled percent signs |
| SystemdQuote.Rendered | scripts/amf-install-host-admin.mjs:138-144 | before the last check, rendering the required ExecStart value puts each quoted path in its place, whatever the paths contain |
| SystemdQuote.RefusedExactly | scripts/amf-install-host-admin.mjs:138-144 | the last check refuses the whole rendered unit exactly if one of the paths contains what looks like a placeholder, or the text around the command line does once it is filled in; quoting neither makes nor hides one |
| SystemdQuote.UnresolvedIff | scripts/amf-install-host-admin.mjs:143 | what the last check looks for is, anywhere in the text, capital letters and underscores between two at signs |
| SystemdQuote.PlaceholderIsRefused | scripts/amf-install-host-admin.mjs:138-144 | the runtime root /srv/@X@ is refused whatever the rest of the template |
| SystemdQuote.UnitRendered | scripts/amf-install-host-admin.mjs:142 | filling in the template is filling in the command line and the text before and after it |
| SystemdQuote.CommandLineRoundTrip | scripts/amf-install-host-admin.mjs:138-144 | the rendered line gives back exactly the four intended arguments in every environment if and only if no path holds an expandable dollar sign or is a lone variable |
| SystemdQuote.DollarsAreLost | scripts/amf-install-host-admin.mjs:107-144 | with two dollar signs in the runtime root the arguments do not come back |
| SystemdQuote.EscapeKeepsControlsOut | scripts/amf-install-host-admin.mjs:15 | a path without control characters stays so when quoted, so the line stays one line |
| UnitTemplate.ValidateTemplate | scripts/amf-install-host-admin.mjs:90-106 | the loop over the lines accepts exactly the templates whose entries have a required key with its value, or the description with any, no key twice and no required one missing |
| UnitTemplate.CheckShipped | deploy/systemd/amf-host-admin.service.in:1-15 | the template of the repository is accepted |
| UnitTemplate.AcceptedIsShipped | scripts/amf-install-host-admin.mjs:91-105 | besides the description an accepted template has just the entries of that one, in their sections and with their values, and all of them |
| UnitTemplate.CommentsDoNotCount | scripts/amf-install-host-admin.mjs:99 | empty lines and comments are no entries and change no section |
| UnitTemplate.AcceptedUnit | scripts/amf-install-host-admin.mjs:90-144 | an accepted template splits around the value of ExecStart, so the unit is rendered around the command line and refused under the exact condition |
| HostAdmin.CollectCode | scripts/amf-install-host-admin.mjs:124-146 | the collection succeeds exactly if every source has a proper mode, object and size or may be missing, and the template makes a unit; the material is then that of the sources in their order, the first source that is wrong decides the error, and a catalog that imports the index always comes with it |
| HostAdminRequest.Assemble | scripts/amf-install-host-admin.mjs:120-147 | the request collects exactly the code files of the revision under their release paths, the unit, and the two configuration files; no two of them go to one path |
| HostAdminRequest.ManagedIff | scripts/amf-install-host-admin.mjs:151 | managed are the two configuration files, the unit, and the listed code files of any revision of 40 lower-case hexadecimal digits; nothing else |
| HostAdminRequest.FreshPlan | scripts/amf-install-host-admin.mjs:148-172 | on a host where nothing is in the way every assembled request gets a plan, which writes all of the material and then a manifest with the revision and the digest of each file |
| HostAdminRequest.UpgradePlan | scripts/amf-install-host-admin.mjs:148-172 | after a complete installation every other assembled request for the same roots gets a plan, if nothing that is not recorded is in its way |
| HostAdminRequest.ManifestRefused | scripts/amf-install-host-admin.mjs:149-150 | the manifest is refused exactly if it is no JSON, or of another schema, root or unit, or without a revision |
| HostAdminRequest.RefusalMeans | scripts/amf-install-host-admin.mjs:153-161 | every other refusal points at a path that is not managed, that differs from its record, or that is there and not recorded |
| HostAdmin.ManifestIsNotManaged | scripts/amf-install-host-admin.mjs:120-151 | the manifest's own path is never an installable target |
| HostAdmin.Host.AtomicWrite | scripts/amf-install-host-admin.mjs:175-186 | both comparisons, the temporary file and another process at the same target: a success replaces what the other has left there by the rename, which is something else than the expected content exactly if its last move alters the target; a failure leaves the target to what it held or to the other, and a temporary file is left exactly if one had been created |
| HostAdmin.LoseChange | scripts/amf-install-host-admin.mjs:175-186 | a write that succeeds and loses the file that another process had put there after the last comparison |
| HostAdmin.Host.Build | scripts/amf-install-host-admin.mjs:148-172 | the loops over paths and material compute the plan that the files, the recorded targets and the request determine |
| HostAdmin.Host.EnsureDirectories | scripts/amf-install-host-admin.mjs:39-49 | missing directories are made private, those that are there are left as they are, and one that is not private is refused |
| HostAdmin.Host.EnsureToken | scripts/amf-install-host-admin.mjs:207-211 | it succeeds exactly if the token is unchanged since the plan and, if there is none, can be created |
| HostAdmin.Host.Apply | scripts/amf-install-host-admin.mjs:187-214 | stopped anywhere, the files are those of a prefix of the confirmed plan's changes; an unconfirmed plan changes nothing; it reports no change exactly if the plan has none and the token is there, and whenever it does not stop everything the plan lists is on disk and there is a token; nothing is written before all directories are private and the token is there unchanged, and only a fault, an open directory or a changed token stops a confirmed plan |
| HostAdmin.PlannedPaths | scripts/amf-install-host-admin.mjs:152-169 | a plan lists distinct paths, each with its observation, and the manifest is not among the targets |
| HostAdminRuns.PlanIffAgrees | scripts/amf-install-host-admin.mjs:148-161 | there is a plan exactly if the manifest is valid and every listed path is managed and as recorded |
| HostAdminRuns.ManifestLast | scripts/amf-install-host-admin.mjs:165-169 | if any target changes, the manifest changes too and is written last |
| HostAdminRuns.TornIsDetected | scripts/amf-install-host-admin.mjs:159-212 | after at least one target write and no manifest write, planning again fails with managed_target_drift or unowned_target_exists |
| HostAdminRuns.CompleteIsStable | scripts/amf-install-host-admin.mjs:165-212 | after a complete installation planning again finds no change to make, and the same manifest, byte for byte |
| HostAdminRuns.ReplanIffWhole | scripts/amf-install-host-admin.mjs:148-212 | an installation that stopped anywhere can be planned again exactly if it had written nothing or everything |
| HostAdminRuns.TargetsGrow | scripts/amf-install-host-admin.mjs:165-212 | over any run of complete installations the recorded targets only grow, and each is on disk with its recorded digest |
| HostAdminDigest.SameValueSameParts | scripts/amf-install-host-admin.mjs:170-171 | the plan's JSON form determines everything it is made from, whatever the order of its observations |
| HostAdminDigest.PartsFixPlan | scripts/amf-install-host-admin.mjs:148-171 | the manifest is not in the digested plan, but is determined by it: the old one is observed by its digest |
| HostAdminDigest.ConfirmedByDigest | scripts/amf-install-host-admin.mjs:170-190 | two plans have the same digest exactly if they are the same plan, so confirming the digest confirms the plan |
| HostAdminDigest.NoOpIsSaid | scripts/amf-install-host-admin.mjs:170 | the digested plan says that there is nothing to do exactly if it lists no change and the token is there |
| Extractor.Runner.WriteState | scripts/amf-conversation-memory-extractor.mjs:19-26 | stopped anywhere between the temporary file, the rename and the change of mode, the state file is the old one or the new one, even when the temporary one is torn; a failure after the rename leaves the new one |
| Extractor.Runner.Propose | scripts/amf-conversation-memory-extractor.mjs:245-250 | stopped anywhere, the proposing stage has carried out a prefix of: persist, send each, persist; at its end the cursor is the next page, nothing is in flight and the budget is as before |
| Extractor.Runner.Extract | scripts/amf-conversation-memory-extractor.mjs:225-236 | the same for a fresh extraction with the model call between two persisted stages; at its end the day had room for the call, and exactly what the call used is added to it |
| Extractor.Runner.Tick | scripts/amf-conversation-memory-extractor.mjs:192-252 | stopped anywhere, a tick has carried out a prefix of its effects, and it carries out all of them unless one of its calls is stopped; when it ends after a rejection, a resumption or an accepted answer, the cursor is the next page and nothing is in flight, with the budget as before or, after a model call, more by what the call used |
| Extractor.Runner.DryTick | scripts/amf-conversation-memory-extractor.mjs:192-252 | a dry run persists and sends nothing, and reports, exactly if the gates are open and the claims valid, the records that a fresh tick on an empty state would propose |
| Extractor.SqueezeIdempotent | src/conversation-memory-extractor.mjs:166 | squeezing a claim's blanks twice is squeezing them once, so a claim read back keeps its text |
| Extractor.SqueezeSplits | src/conversation-memory-extractor.mjs:166 | every blank parts the words before it from the words after it: nothing on either side is dropped, and one space is left between words |
| Extractor.SqueezeKeepsWords | src/conversation-memory-extractor.mjs:166 | a text without blanks stays as it is |
| Extractor.ValidateClaims | src/conversation-memory-extractor.mjs:161-173 | the loop with its set of texts seen accepts exactly lists within the limit whose claims are eligible, acceptable and pairwise different when normalised, and returns them squeezed and rated |
| Extractor.ClampedIsNearest | src/conversation-memory-extractor.mjs:171 | the score is the one between 0 and 1 that is nearest to the confidence |
| Extractor.KeysTellApart | src/conversation-memory-extractor.mjs:237-263 | two keys are equal exactly if identity, revision and normalised text are |
| ExtractorRuns.BuiltAreDrawn | scripts/amf-conversation-memory-extractor.mjs:239-243 | the records built for claims that are all unlike are about those claims and no two of them alike |
| ExtractorRuns.KeptAgain | src/conversation-memory-extractor.mjs:161-173 | validating claims that were read back changes nothing but a null confidence, which becomes 0.5 |
| ExtractorRuns.AcceptedIffScored | src/conversation-memory-extractor.mjs:210-235 | the persisted records of an own entry pass their validation exactly if all of them have a score |
| ExtractorRuns.EffectsAreOwn | scripts/amf-conversation-memory-extractor.mjs:192-252 | every state a tick persists is, read back, one whose claims, keys and records fit together, and every proposal is about what its key names |
| ExtractorRuns.ResumeThrowsIff | src/conversation-memory-extractor.mjs:184-235 | resuming throws on an own state exactly if a model call is pending or a record of the matching entry has no score |
| ExtractorRuns.ResumeThrowsExactly | src/conversation-memory-extractor.mjs:161-235 | over any schedule: exactly if a model call is pending, or the matching entry was persisted by a fresh tick that got a confidence that is no number for a claim to be proposed, and was stopped before its end |
| ExtractorRuns.UnscoredStep | scripts/amf-conversation-memory-extractor.mjs:192-252 | one tick leaves such an entry exactly if it makes one or does not touch the one it found |
| ExtractorRuns.UnscoredBlocks | scripts/amf-conversation-memory-extractor.mjs:220-221 | while page and triage lead to its session, no later tick persists or sends anything |
| ExtractorRuns.HighConfidenceBlocks | src/conversation-memory-extractor.mjs:171-223 | this at the confidence "high", from an empty state on |
| ExtractorRuns.ResumedScored | src/conversation-memory-extractor.mjs:202-203 | resuming from `model_done` or from a scored entry persists only records with a score |
| ExtractorRuns.ServerStaysFiled | src/conversation-memory-extractor.mjs:237-263 | over any schedule the server's proposals are kept, one for each identity, revision and claim, and each is about just that |
| ExtractorRuns.LeavesUnrunnable | scripts/amf-conversation-memory-extractor.mjs:195-236 | a tick leaves a state that the loader or the check after it refuses exactly if it was stopped while its model call was pending, or later before its end in a session whose id the loader refuses |
| ExtractorRuns.UnrunnableBlocks | src/conversation-memory-extractor.mjs:87-190 | such a state, a pending reservation included, blocks every later tick for good |
| ExtractorRuns.NeverOverspent | src/conversation-memory-extractor.mjs:139-159 | over any schedule, if no call uses more than was reserved for it, what all model calls of a day have used stays within the daily limit, and exactly the pending call's tokens are reserved |
| ExtractorRuns.OverspentIff | src/conversation-memory-extractor.mjs:150-159 | a settled call leaves the day within its limit exactly if its own use still fits |
| ExtractorRuns.OneCallOverspends | src/conversation-memory-extractor.mjs:150-159 | a call that uses two tokens where one was reserved exceeds a limit of one |
| ExtractorRuns.TickWhileProposing | scripts/amf-conversation-memory-extractor.mjs:237-250 | once `proposing` is on disk with all scores, a tick stopped anywhere has resent a prefix of the same records under the same keys; the cursor stays until all of them are sent, and is then the next page with nothing in flight and the budget as before |
| ExtractorRuns.ResentUntilAcknowledged | scripts/amf-conversation-memory-extractor.mjs:237-250 | over any number of interrupted ticks entry and cursor stay, and nothing but the entry's own proposals is sent or stored |
| ExtractorRuns.AcknowledgedThenMoved | scripts/amf-conversation-memory-extractor.mjs:245-250 | when a tick gets to its end, everything is on the server, under each free key the record that was persisted, the cursor is the next page and nothing is in flight |
| ExtractorRuns.FreshSends | scripts/amf-conversation-memory-extractor.mjs:225-249 | a fresh tick that gets to its end has sent exactly one proposal for each claim of the model that is shared and not known, under the identity, the revision and its own text, with its type, score, transcript and time; and no other |
| ExtractorRuns.PaidOnce | scripts/amf-conversation-memory-extractor.mjs:220-236 | an answer of the model that has been persisted is resumed by the next tick for its session: no model is called and the budget stays |
| ExtractorRuns.SentIsFiled | src/conversation-memory-extractor.mjs:191-235 | whatever the state file holds, what a tick sends is filed under the session and its own claim, no two under one key, and records taken over from the file have a score |
| ExtractorRuns.CursorMovesLast | scripts/amf-conversation-memory-extractor.mjs:216-249 | the cursor changes only when the triage rejects the session or after every proposal of the tick has arrived, and then to the next page, with nothing in flight |
| ExtractorRuns.FateIsExact | scripts/amf-conversation-memory-extractor.mjs:195-232 | exactly when a waiting entry is carried out, keeps waiting, is stuck or is dropped, in terms of the session, identity and revision that the page gives |
| ExtractorRuns.RejectedIsLost | scripts/amf-conversation-memory-extractor.mjs:216-219 | once the triage rejects the session, a complete tick gives the waiting proposals up and sends none |
| Quality.SplitCounts | scripts/amf-conversation-memory-extractor.mjs:169-172 | kept and counted claims add up to the candidates, and the kept ones are the shared ones |
| Quality.SearchClaims | scripts/amf-conversation-memory-extractor.mjs:295-300 | duplicates and new claims are counted exactly; it fails exactly if a search fails |
| Quality.Evaluate | scripts/amf-conversation-memory-extractor.mjs:257-306 | a report is made exactly if reader generation, policy, ids, prerequisites and token budget allow it, and it is the report of the counters that say what their names say, with true rates and as reasons exactly the thresholds missed; it is never refused for its counters |
| Quality.ReportBalances | scripts/amf-conversation-memory-extractor.mjs:261-301 | scanned, attempted and candidate counters are the sums of their parts |
| Quality.ReportPassesGate | src/conversation-memory-quality-gate.mjs:54-60 | every report of a sample of at most 20 passes the gate's check of the counters, the bound on claims per model included |
| Quality.RatesAreUnique | src/conversation-memory-quality-gate.mjs:35-61 | the rates are, and are the only, shares of their numerators in their denominators in parts of ten thousand, rounded down, and 0 of nothing |
| Quality.CreatedIsHonest | src/conversation-memory-quality-gate.mjs:83-89 | a created report has true rates, exactly the missed thresholds as reasons, and passes exactly if there are none |
| Quality.AssessIff | src/conversation-memory-quality-gate.mjs:62-74 | the reasons given are exactly the thresholds that the counters miss, compared without rounding |
| Quality.GateIff | src/conversation-memory-quality-gate.mjs:83-109 | the gate passes exactly the reports created from the same policy, key and digests on counters that meet the policy, within their age |
| Quality.PassMeans | src/conversation-memory-quality-gate.mjs:91-110 | a report that passes is about this policy, release and configuration, signed with this key and in time, and its counters add up and meet every threshold as products of whole numbers |
| Quality.NothingToPropose | src/conversation-memory-quality-gate.mjs:61-69 | a sample with nothing new to propose never passes a policy that asks for some |
| Quality.NewClaimPasses | src/conversation-memory-quality-gate.mjs:61-89 | one new claim passes the strictest policy, and one known claim fails it for promotion and duplicates |
| Quality.VerdictMeans | src/conversation-memory-quality-gate.mjs:91-110 | each refusal of the gate says what is wrong with the report |
| Quality.PolicyRefused | src/conversation-memory-quality-gate.mjs:45-53 | under a policy out of its bounds no report is created and none passes |
| OperatorLog.KilledIsDisciplined | scripts/amf-audit-retention-gc-operator.mjs:108-175 | a run that is killed leaves a disciplined history |
| OperatorLog.LogHasShape | scripts/amf-audit-retention-gc-operator.mjs:125-165 | the lines of the log file are nothing, a refusal, a start and a refusal, or a start, its batches numbered from 1, and perhaps an end |
| OperatorLog.ConfirmedHaveShape | scripts/amf-audit-retention-gc-operator.mjs:125-165 | the confirmed records have one of these shapes, too, and a start is never followed by a refusal |
| OperatorLog.RetractedExactly | scripts/amf-audit-retention-gc-operator.mjs:142-155 | a start and a refusal are in the file exactly if the start was written without being confirmed and the refusal was written |
| OperatorLog.RetractStart | scripts/amf-audit-retention-gc-operator.mjs:142-155 | a run that ends with these two lines |
| OperatorLog.CompletedExactly | scripts/amf-audit-retention-gc-operator.mjs:158-167 | the file says completed exactly if the last event wrote such an end record |
| OperatorLog.NoDeleteBeforeStart | scripts/amf-audit-retention-gc-operator.mjs:142-147 | nothing is deleted before the start record is confirmed |
| OperatorLog.AtMostOneUnrecorded | src/operator/audit-retention-gc-operator.mjs:242-264 | at every instant at most one committed batch has no confirmed record |
| OperatorLog.EndTellsTheTruth | scripts/amf-audit-retention-gc-operator.mjs:158-165 | the totals of an end record are the true ones, and nothing follows it |
| OperatorLog.BatchTellsTheTruth | src/operator/audit-retention-gc-operator.mjs:247-264 | a batch record follows the deletion that it counts and has its number |
| OperatorLog.BatchesInOrder | src/operator/audit-retention-gc-operator.mjs:247-264 | the batch records in the file are numbered by their places |
| OperatorLog.CompletedMeansRecorded | scripts/amf-audit-retention-gc-operator.mjs:158-167 | a log says completed only if every committed batch has its confirmed record |
| OperatorLog.Run.ApplyBatches | src/operator/audit-retention-gc-operator.mjs:221-274 | every committed batch is recorded before the next, event by event and with exact totals, only a failed record leaves one open, no batch follows one that was empty or whose probes or vacuum failed; there is no failure exactly if there was room at first and every batch passed and was confirmed, the free space then never fell by more than allowed from one probe to the next, and otherwise what stops the run is the first thing wrong |
| OperatorLog.Run.RunPhaseA | scripts/amf-audit-retention-gc-operator.mjs:117-175 | for every schedule of guards, probes, batches and appends the events are these, each append with the schedule's result; the call returns normally exactly if nothing refuses it, all appends are confirmed and all batches pass, and then every probe was above the floor and no more than the allowed drop below the one before; otherwise it stops for the first thing wrong; when it throws the file says completed exactly if that record was written unconfirmed |
| OperatorLog.StopOnDrop | src/operator/audit-retention-gc-operator.mjs:162-168 | a run that stops because the free space dropped, although it is above the floor; the batch is recorded and the end says not completed |
| OperatorLog.CompleteAndThrow | scripts/amf-audit-retention-gc-operator.mjs:158-175 | a run that throws and leaves a file that says completed |

## Left out

- File modes, owners, link counts of the release tree, free space and the validation of options are guards before the mutation and are not modelled; nor are their error codes.
- tar, git, systemd, the model subprocess, HTTP and PostgreSQL appear as oracles that answer or fail.
- A failed system call that has had part of its effect is modelled for writes and for the removal of the staging directory only.
- ReleaseInstaller.InstallRun.Run: a hook stops the run at every call with its point or at none; other patterns are faults of the schedule.
- ReleaseInstall.InstallUnlocked: the configuration backup is one call that succeeds or fails here, because it does not touch the release tree; its own properties are in ConfigBackup.
- ReleaseHistory.BackToA: speaks of files and of the manifest's list; the manifest's revision may differ, as may empty directories, and its time stamp is not modelled.
- ReleaseSpec.RollbackRestores: says nothing about directories that were empty before; the clean-up may have removed those above stale entries.
- ReleaseExamples.FailWithoutFault: shows two families of releases, one for each reason; that there are no other reasons is in the contract of Run.
- OpenFiles.CopyOpenFile: device numbers are part of the inode number, and the copied mode and owner are not modelled.
- Canonical.RoundTrip: lone surrogates in strings do not occur; a finite number is given by the digits and the exponent that ECMAScript chooses for it, and how it chooses them is not modelled.
- SystemdQuote.CommandLineRoundTrip: of systemd's syntax it models double quotes, the escapes for backslash and quote, `%%`, `$$`, `${NAME}` and a word `$NAME`; a line that uses more is not given a meaning.
- HostAdmin.Host.Apply: nobody else writes to the targets during a whole call, which AtomicWrite alone allows; it compares plans instead of their digests, which ConfirmedByDigest justifies; the plan's JSON form lists the digests of the material where the program lists the blobs and the two configuration files.
- HostAdmin.CollectCode: what makes a unit of the template is a parameter here; UnitTemplate and SystemdQuote say what it does.
- Extractor.Runner.Tick: the report on the plan usage in the state is left out, and whether the plan constrains the tick is one answer; that a state file is shaped as declared is checked for the session id and the stage only.
- ExtractorRuns.AcknowledgedThenMoved: assumes that page and triage keep leading to the session in flight and that all records have scores, as FateIsExact shows is needed.
- Quality.GateIff: digests and signatures stand for what they are made from, and the shape checks of a report are left out.
- OperatorLog.Run.RunPhaseA: the guards and the first probe appear as one answer; the preview without `--apply` only reads and is left out.
- The stored state's shape checks, the migration of older state files and the command-line parsing would add only easy members.
