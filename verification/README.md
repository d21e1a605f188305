# Verified models of the STX agent and its release scripts

This project models four parts of the repository in Dafny and proves what they promise:

- the agent's **proxy-jar transaction** and its **self-update protocol**;
- the agent's **reconciliation** of monitored processes, its **log window** and its **config rewrite**;
- the **license inserter and checker**, a printer and its parser;
- the **manifest merge** of the dependency release.

Code that changes state step by step is modelled by methods with the same loops and branches, on
classes where the source has an object or a file system, and proved against functions of the old
state; what the source promises is then proved about those functions. `dafny verify dfyconfig.toml`
checks everything.

## How the model is laid out

| files | what they hold |
|---|---|
| `Options`, `Lists`, `Text`, `PyText` | options, lists without repetition, Go's and Python's notions of text |
| `Csv`, `Paths`, `JarChanges`, `JarPlan`, `JarOutcome`, `JarRollback`, `JarHandlers` | the jar commands: parameters, paths, replacement and undo on a map of files, destinations, handlers |
| `SelfUpdate`, `UpdateRuns` | the machine of interleaved update and rollback requests, and which of them go through |
| `ProcessIdentity`, `SystemProcesses`, `CommandLines`, `Reconcile`, `Settling`, `Collisions`, `LogWindow`, `ConfigRewrite`, `ConfigLines` | the three pieces of `agent/cmd/main.go`, the names of managed processes, and updates applied twice |
| `LeadingComment`, `LicenseHeader`, `HeaderRoundTrip`, `HashRoundTrip`, `Headers`, `LicenseInserter`, `OrdinaryHeaders`, `TextMode`, `HiddenHeaders`, `SourceTree`, `PathNames`, `TreeRuns`, `LicensePolicy` | the license scripts |
| `Manifest`, `ManifestEntries`, `ManifestFields`, `ManifestMerger` | the manifest merge |

File operations fail wherever a system call can fail: each call succeeds or not by a nondeterministic
choice, failed calls are counted in a ghost field, and the contracts say what is left in either case and
that nothing fails without a failed call. Process inspection, the timestamp recogniser, the assets
directory and Python's `str` of other values are parameters.

## What turned out not to hold

These are properties one would expect of the code, or that its comments suggest, together with what
holds instead.

- **Undoing a jar update** restores every destination when the base names of the sources are pairwise
  distinct. With a repeated base name the second replacement overwrites the backup of the first, and
  the original is lost (`JarChanges.RepeatedJarIsNotRestored`). `JarChanges.UndoRestoresIff` says
  exactly when a destination gets its content back, and the update command carries that condition.
- **A rollback after a failed update** goes back to before the last successful one only for
  destinations that the failed update had not written, or not changed: although undone, it has
  overwritten the backups of what it touched (`JarRollback.UndoneUpdateSpoilsRollbackIff`, and
  `JarHandlers.JarHost.RollbackAfterFailure` for the files that the command leaves). At the destination
  where it failed the backup may be lost without any step
  (`JarRollback.RollbackWhereItFailedIff`).
- **The running binary and the one on disk** may differ with the mutex free although no restore has
  failed: a rollback restores the backup and then fails to exec it, and unlike an update it is not
  undone (`SelfUpdate.RollbackCanLoseSync`). `RestartKeepsSyncIff` and `RollbackKeepsSyncIff` give the
  exact conditions for each closure, `InSyncIff` for whole runs.
- **Updates for two clusters** do not commute merely because every tracked entry named in a list
  belongs to that list's cluster: a listed process may carry the number of the other cluster
  (`Reconcile.ForeignProcessDoesNotCommute`). `UpdatesCommuteIff` is exact.
- **An update applied twice** settles for every list on a host that answers from one list of
  processes, or fails to get one, although processes of different directories and roles can share a
  managed name: a role may spell out another role and a digest (`ProcessIdentity.SpelledNameIff`). The
  exception is a collision of two directory digests (`Collisions.CollisionDoesNotSettle`, and
  `CollisionCanHappen` with processes and a host for which it happens);
  `PairSettlesIff` is exact for two processes under one name and any answers.
- **The license header is glued** to a Go build constraint that is not ended by a line break, and is
  then not read back (`LicenseInserter.LoneConstraintIsGlued`). `InsertedReadsApacheIff` is exact. A
  second run of the inserter then adds a second header, and a third run changes nothing.
- **Inserter and checker** may disagree on a script whose shebang line has a carriage return inside,
  because in text mode the line goes on behind it (`HiddenHeaders.LoneReturnHidesHeader`). All other
  carriage returns do no harm (`TextMode.InsertedReadsAlike`), nor do inner ones with nothing but line
  breaks behind them. `HiddenHeaders.ReadBehindReturn` and `ReadBlockBehindReturn` say exactly what is
  read otherwise: code there hides the header, comment lines are read instead of a block header and
  together with a hash header, and an open block comment takes a block header in.
- **Not every reported asset is recorded** in the merged manifest: a later fragment can name another
  tarball for the same architecture (`ManifestEntries.OverwrittenTarball`). `RecordedIff` is exact; if no two fragments build different
  tarballs for one architecture, every reported asset is recorded (`ReportedIsRecorded`).

## Model

| member | source | states |
|---|---|---|
| Csv.SplitCSV | agent/cmd/upgrade_commands.go:139-153 | the loop yields the trimmed, non-empty parts between commas, in order |
| Csv.SplitInvertsJoin | agent/cmd/upgrade_commands.go:139-153 | splitting inverts comma-joining of trimmed, non-empty, comma-free names |
| Csv.SplitNormalises | agent/cmd/upgrade_commands.go:139-153 | for any parameter the names are proper fields, and joining and splitting them again changes nothing |
| Csv.SplitIgnoresPadding | agent/cmd/upgrade_commands.go:139-153 | names come back whatever white space is put around them before they are joined, and blank parts between them are dropped |
| Paths.AbsOfSuffix | agent/cmd/self_update_commands.go:286 | appending `.bak` or `.new` to a path with a last name appends it to the file the path denotes |
| Paths.AbsKeepsBase | agent/cmd/self_update_commands.go:188-209 | making a path absolute keeps its base name, so the name check of the source applies to its destinations |
| Paths.CleanDropsDots | agent/cmd/self_update_commands.go:188-209 | in an absolute path empty parts and single dots add nothing, wherever they stand |
| Paths.CleanGoesUp | agent/cmd/self_update_commands.go:188-209 | two dots take back the name before them, and nothing at the root |
| Paths.AbsOfRelative | agent/cmd/self_update_commands.go:188-209 | a relative path is taken below the working directory |
| Paths.BaseOfSlashed | agent/cmd/self_update_commands.go:204 | the base name of a path is its last part, whatever slashes follow it |
| Paths.JarNameIff | agent/cmd/self_update_commands.go:243 | a source is accepted exactly if its name is `stx-java-proxy-`, anything, and `.jar` |
| JarChanges.SidecarsAreApart | agent/internal/selfupdate/selfupdate.go:341-358 | a backup is never a staging copy, and neither of them is a jar |
| JarChanges.RunContent | agent/cmd/self_update_commands.go:241-266 | after any run of replacements a jar holds the content of its origin, which is read off the list of steps alone |
| JarChanges.RunFrame | agent/cmd/self_update_commands.go:241-266 | nothing but destinations and their `.bak` and `.new` copies changes |
| JarChanges.BackupContent | agent/internal/selfupdate/selfupdate.go:341-358 | the backup of a destination holds what the destination held before its last replacement |
| JarChanges.UndoContent | agent/cmd/self_update_commands.go:232-240 | what the backward undo leaves of a file is decided by its first entry in the log and by its backup |
| JarChanges.UndoRestoresIff | agent/cmd/self_update_commands.go:226-266 | the undo gives a destination its old content exactly if it was absent or its content before the last replacement was the first one |
| JarChanges.UndoRestoresAll | agent/cmd/self_update_commands.go:226-266 | with destinations written once each, the undo gives every file but the sidecars its old content; absent stays absent |
| JarChanges.RepeatedJarIsNotRestored | agent/cmd/self_update_commands.go:241-266 | a concrete run with a repeated base name after which the undo does not restore the original |
| JarChanges.UndoFinishesUndo | agent/cmd/self_update_commands.go:231-240 | undoing is idempotent and finishes any partial undo, so it can be handed on to the restart routine |
| JarChanges.UndoneInPart | agent/cmd/self_update_commands.go:231-240 | an undo applied in part leaves each destination old or new |
| JarChanges.RestoredStays | agent/cmd/self_update_commands.go:231-240 | what a full undo has restored stays restored, whatever entries are undone afterwards |
| JarPlan.ProxyJarDestinations | agent/cmd/self_update_commands.go:188-209 | the loop with its set of seen paths yields the target-directory path and the running jars of that name, in order of first mention, once each |
| JarPlan.DestinationsExact | agent/cmd/self_update_commands.go:188-209 | a file is a destination iff it is the target-directory path or a running jar with that base name; no repetition |
| JarPlan.DestinationsApart | agent/cmd/self_update_commands.go:188-209 | destinations of different base names are disjoint, and no destination is a `.bak` or `.new` of another |
| JarPlan.PlanIsDistinct | agent/cmd/self_update_commands.go:241-266 | with distinct base names the whole command writes no destination twice |
| JarPlan.PlanExact | agent/cmd/self_update_commands.go:241-266 | the steps of the command are precisely every source to each of its destinations |
| JarPlan.PlanPutsInPlace | agent/cmd/self_update_commands.go:241-266 | with distinct base names every destination of a source ends with the content that the source had at first |
| JarOutcome.AfterUndoElsewhere | agent/cmd/self_update_commands.go:241-266 | after a failure and any partial undo, a file that is no destination written and no sidecar is as it was |
| JarOutcome.AfterFullUndoIff | agent/cmd/self_update_commands.go:241-266 | after a failure and a full undo, also with repeated base names, a destination is as it was exactly if it was absent or its last backup was of its first content; the one that failed is excepted |
| JarOutcome.AfterFullUndoAt | agent/cmd/self_update_commands.go:241-266 | after a failure and one full undo, whatever partial ones came before and after it, a destination is as it was |
| JarOutcome.AfterUndoBackup | agent/cmd/self_update_commands.go:232-240 | no undo touches a backup; only that of the destination that failed may have been lost |
| JarOutcome.LogStaysBacked | agent/cmd/self_update_commands.go:232-240 | the undo finds every backup it needs, unless the destination that failed had been written before |
| JarHandlers.JarHost.CopyFile | agent/internal/selfupdate/selfupdate.go:314-337 | a copy gives the content, fails only if the source is missing or a call fails, and then touches nothing but its target |
| JarHandlers.JarHost.OverwriteFile | agent/internal/selfupdate/selfupdate.go:362-372 | all or nothing on the target; it succeeds exactly if the source is there and no call fails; on failure only the staging copy may differ |
| JarHandlers.JarHost.ReplaceFileWithBackup | agent/internal/selfupdate/selfupdate.go:341-358 | on success, which is exactly when the source is there and no call fails, the target holds the source and the backup the old target; on failure only the two sidecars may differ |
| JarHandlers.JarHost.RestoreProxyJar | agent/cmd/self_update_commands.go:279-287 | restores from the backup, or removes a jar that was not there; it succeeds if no call fails and the backup is there; on failure only the staging copy may differ |
| JarHandlers.JarHost.UndoEntry | agent/cmd/self_update_commands.go:234-238 | one turn of the undo: one more entry is undone if no call fails |
| JarHandlers.JarHost.Undo | agent/cmd/self_update_commands.go:232-240 | the backward loop goes on after a failure: if every backup is there, it undoes all entries but one for each call that failed; it says whether it undid all |
| JarHandlers.JarHost.ReplaceEach | agent/cmd/self_update_commands.go:253-265 | the inner loop performs the planned steps in order up to the one that fails, for which a call must have failed, and logs exactly the ones done |
| JarHandlers.JarHost.CheckSource | agent/cmd/self_update_commands.go:242-252 | the two checks of a source, in order, with their errors |
| JarHandlers.JarHost.ReplaceSource | agent/cmd/self_update_commands.go:241-266 | one turn of the outer loop: a source with a bad name or a missing one changes nothing, another gets its planned steps |
| JarHandlers.JarHost.ReplaceAll | agent/cmd/self_update_commands.go:241-266 | the outer loop follows the plan; it stops at the first bad name or missing source, or, only if a call failed, at a destination |
| JarHandlers.JarHost.RestartRunningProxies | agent/internal/installer/proxy_restart.go:106-190 | the restart routine runs the undo for any number of proxies; if one run went through, all entries have been undone at one go, whatever the others did; if no call fails, the files are untouched or one run did |
| JarHandlers.JarHost.Conclude | agent/cmd/self_update_commands.go:243-274 | after the loops: the undo on an error, otherwise the report, which lists exactly the backups that were made, and the restart |
| JarHandlers.JarHost.UpdateProxyJars | agent/cmd/self_update_commands.go:211-275 | all or nothing: with distinct base names, a failed command during whose undo no call failed leaves every file but sidecars as before; one that succeeded has left every source at each of its destinations, or has been undone for a proxy; if calls failed during the undo each destination is old or new, old if its entry was undone, and at most one entry for each such call was not; with repeated names the exact condition for each destination; nothing else changes; a success reports the destinations written, in order, and the backup of a jar exactly if it was there before it was written; every error is explained by the plan |
| JarHandlers.ReportIsExact | agent/cmd/self_update_commands.go:262-267 | the report of any run of steps: the destinations in order; the backup of a jar exactly if the jar was written and was there before, and with distinct destinations in order and once each |
| JarHandlers.BackupsAre | agent/cmd/self_update_commands.go:262-264 | a backup is listed exactly if some entry of the log made it |
| JarHandlers.JarsOfNames | agent/cmd/self_update_commands.go:212 | the command works on the paths that its parameter spells, with any white space around them |
| JarHandlers.JarHost.SuccessOutcome | agent/cmd/self_update_commands.go:241-274 | a run of the whole plan is reported exactly and, with distinct base names, puts every source in place |
| JarHandlers.JarHost.Outcome | agent/cmd/self_update_commands.go:241-275 | the all-or-nothing statement for every way the loops and the undo can end, for distinct base names |
| JarHandlers.JarHost.AnyOutcome | agent/cmd/self_update_commands.go:241-275 | for any base names: nothing but destinations and sidecars changes, and exactly which destinations a full undo restores |
| JarHandlers.JarHost.RollbackOne | agent/cmd/self_update_commands.go:308-315 | a candidate without a usable backup is skipped; otherwise it becomes its backup, unless a call fails |
| JarHandlers.JarHost.RollbackEach | agent/cmd/self_update_commands.go:302-316 | each candidate once, in order; it stops at a restoration only if a call fails; the report lists the restored ones |
| JarHandlers.JarHost.RollbackProxyJars | agent/cmd/self_update_commands.go:292-325 | the candidates are the jars of the target directory and the running ones; the files and the report are as specified, also when it stops with an error, which it does only if a call fails |
| JarRollback.RestoredContent | agent/cmd/self_update_commands.go:302-316 | a listed jar with a non-empty backup ends as the backup; every other jar is untouched |
| JarRollback.RollbackReport | agent/cmd/self_update_commands.go:302-316 | a candidate is in the report exactly if a non-empty backup lies beside it when the rollback begins; once each, in order |
| JarHandlers.JarHost.RollbackReports | agent/cmd/self_update_commands.go:302-325 | the same for the command, which says that it was skipped exactly if no candidate has such a backup |
| JarRollback.InDirIff | agent/cmd/self_update_commands.go:298 | the pattern takes the files directly in the directory whose name is `stx-java-proxy-`, anything, and `.jar` |
| JarRollback.UpdateThenRollback | agent/cmd/self_update_commands.go:292-325 | a successful update followed by a rollback over the same target directory and running jars gives every destination that had content that content back |
| JarRollback.RollbackAfterUpdate | agent/cmd/self_update_commands.go:292-325 | what a rollback leaves of any destination of a successful update: its old content if it had any, a stale backup if one lay beside an absent destination, and otherwise the new jar |
| JarRollback.RollbackKeepsNewJar | agent/cmd/self_update_commands.go:303-316 | a destination that did not exist before the update, and had no usable backup beside it, keeps its new jar |
| JarRollback.RollbackAfterUndo | agent/cmd/self_update_commands.go:292-325 | after an update that was undone, a rollback restores each destination to what it held before that update |
| JarRollback.UndoneUpdateSpoilsRollbackIff | agent/cmd/self_update_commands.go:211-325 | after a successful and then an undone update, a rollback gives a destination of the first its oldest content exactly if the second had not written it or not changed it |
| JarRollback.RollbackWhereItFailedIff | agent/cmd/self_update_commands.go:253-265 | at the destination where the second update failed, what its backup still holds decides |
| JarHandlers.JarHost.RollbackAfterFailure | agent/cmd/self_update_commands.go:211-325 | the same exact condition for the files as the failed update command leaves them |
| JarRollback.SecondRollbackIsIdle | agent/cmd/self_update_commands.go:292-325 | a second rollback command changes no file |
| SelfUpdate.EveryRunIsSafe | agent/cmd/self_update_commands.go:91-149 | in every interleaving the mutex is held iff exactly one critical section or scheduled closure is outstanding, it is never unlocked while free, and while it is free and in sync the binary on disk is the running one |
| SelfUpdate.InSyncIff | agent/cmd/self_update_commands.go:116-146 | a run ends in sync exactly if each failed restore of an update and each failed exec of a rollback was followed by an exec |
| SelfUpdate.FreeMeansSame | agent/cmd/self_update_commands.go:91-149 | so in every run, while the mutex is free and no such failure is the last word, the binary on disk is the running one |
| SelfUpdate.NextIsSafe | agent/cmd/self_update_commands.go:91-149 | every step of every task keeps that invariant |
| SelfUpdate.ApplyStepIsSafe | agent/internal/selfupdate/selfupdate.go:126-178 | the steps of `Apply` keep the invariant, which includes that a package beyond the first check has matched its checksum; they leave the executable untouched unless the final rename succeeds |
| SelfUpdate.ExecRunsVerifiedPackage | agent/internal/selfupdate/selfupdate.go:126-186 | what an update execs is the package of that very command, which has matched its checksum and reported the target version |
| UpdateRuns.OthersWait | agent/cmd/self_update_commands.go:91-149 | while a task has the mutex, no step of any other changes the mutex, the binaries or that task |
| UpdateRuns.UpdateGoesThroughIff | agent/internal/selfupdate/selfupdate.go:126-178 | in every interleaving an update that has the mutex goes from step to step as if it were alone, exactly as long as its checks pass: target given and not running, checksum, copy, reported version, backup, rename; at the first that fails it is given up with the executable and the process as they were, before the backup also with the old backup |
| UpdateRuns.ChecksumMatchesIff | agent/internal/selfupdate/selfupdate.go:131-140 | a checksum matches exactly if it is the digest in any case with any white space around it |
| UpdateRuns.UpdateArrives | agent/cmd/self_update_commands.go:92-102 | a request that finds the mutex held changes nothing; another takes it |
| UpdateRuns.UpdateAlone | agent/cmd/self_update_commands.go:91-149 | six steps after getting the mutex an update is about to exec, exactly if all checks pass; otherwise it has released the mutex and left the executable and the process alone |
| UpdateRuns.UpdateExecs | agent/internal/selfupdate/selfupdate.go:182-186 | the exec ends with the package running and on disk, the old binary as the backup and the mutex free |
| UpdateRuns.UpdateFallsBack | agent/cmd/self_update_commands.go:116-126 | after a failed exec the old binary is on disk again exactly if it is not empty and both the copy and the rename of the backup succeed; the mutex is released either way |
| UpdateRuns.UpdateRequested | agent/cmd/self_update_commands.go:91-149 | from the request to the end: package running and on disk, old binary as backup, mutex free, if everything goes well; executable and process as they were and mutex free if a check fails |
| UpdateRuns.RollbackGoesThroughIff | agent/internal/selfupdate/selfupdate.go:189-213 | in every interleaving a rollback that has the mutex gets to the exec exactly if there is a usable backup that can be copied and renamed; otherwise executable, backup and process stay |
| UpdateRuns.RollbackArrives | agent/cmd/self_update_commands.go:128-138 | a rollback without a backup, or that finds the mutex held, changes nothing |
| UpdateRuns.RollbackExecs | agent/internal/selfupdate/selfupdate.go:223-230 | the exec of a rollback runs the backup; if it fails the backup is on disk all the same |
| SelfUpdate.RestartKeepsSyncIff | agent/cmd/self_update_commands.go:116-126 | the restart closure ends with the mutex free and the running binary on disk exactly if the exec or the restore succeeded, or they were equal |
| SelfUpdate.RollbackKeepsSyncIff | agent/internal/selfupdate/selfupdate.go:189-230 | the same for the rollback closure, which is not undone when the exec fails |
| SelfUpdate.RollbackCanLoseSync | agent/cmd/self_update_commands.go:141-146 | a run in which no restore fails that ends with the mutex free and another binary on disk than the running one |
| Reconcile.Agent.TrackProcessSilent | agent/internal/monitor/monitor.go:380-382 | the entry is replaced by a fresh running one without a cluster |
| Reconcile.Agent.SetProcessClusterID | agent/internal/monitor/monitor.go:87-94 | sets the cluster of an entry that is there |
| Reconcile.Agent.ResolvePID | agent/cmd/main.go:2484-2518 | the tracked PID if inspection does not reject it, else the listed one, else the discovered one, else 0 |
| Reconcile.Agent.UntrackStale | agent/cmd/main.go:2431-2440 | drops exactly the entries in scope that are not to be kept, in whatever order they are visited |
| Reconcile.Agent.TrackOne | agent/cmd/main.go:2442-2473 | one turn of the tracking loop changes one name, as resolution and auto-restart decide |
| Reconcile.Agent.HandleUpdateMonitorConfig | agent/cmd/main.go:2392-2475 | the handler leaves the table that the specification gives |
| Reconcile.ReconciledAt | agent/cmd/main.go:2427-2473 | the one table reached: an unlisted name survives iff it belongs to another cluster; a listed name holds what its process resolves to, from the entry there was |
| Reconcile.EntryMeaning | agent/cmd/main.go:2442-2473 | a listed name holds a fresh entry with its resolved PID, or PID 0 with auto-restart on, or its old entry with it off |
| Reconcile.ListedAt | agent/cmd/main.go:2442-2473 | the whole entry of a listed process: PID, running status, directory, role, start parameters, cluster, and every flag and counter reset |
| Reconcile.UnlistedSurvivesIff | agent/cmd/main.go:2394-2440 | an entry that is not listed, and any entry when auto-monitoring is turned off, survives exactly if the update names a cluster and the entry is of another one |
| Reconcile.NoListNoChange | agent/cmd/main.go:2410-2412 | with auto-monitoring on, an update without a list leaves the table alone |
| Reconcile.TrackedPidIsKept | agent/cmd/main.go:2486-2504 | a tracked PID stays if inspection accepts it or fails |
| Reconcile.OtherwiseResolved | agent/cmd/main.go:2489-2518 | else the listed PID counts, if inspection accepts it or fails, and else the one that is found |
| Reconcile.OrderDoesNotMatter | agent/cmd/main.go:2427-2473 | the table does not depend on the order of the list |
| Settling.ReconcileTwice | agent/cmd/main.go:2427-2518 | the same update applied twice gives the table of applying it once, if inspection does not tell processes of one name apart, or accepts nested or disjoint sets of PIDs for them; inspection errors included |
| Settling.PassesTogether | agent/cmd/main.go:2442-2473 | how two passes over processes of one name stand to one another: the same, or the second untouched so far, or both with PIDs that one process accepts |
| Settling.PairSettlesIff | agent/cmd/main.go:2427-2518 | for two processes under one name and any answers: exactly when an update settles |
| ProcessIdentity.SameNameIff | internal/processidentity/identity.go:29-42 | processes that both name a directory, or both none, share a managed name exactly if they have the same role and digest |
| ProcessIdentity.SpelledNameIff | internal/processidentity/identity.go:29-42 | one with and one without a directory share a name exactly if the role of the latter spells the role and digest of the former |
| ProcessIdentity.SameRoleIff | internal/processidentity/identity.go:29-42 | two roles count as the same in names exactly if they are spelled alike, up to case and white space, or are both one of the three spellings of the default role |
| ProcessIdentity.NameOfWorker | internal/processidentity/identity.go:29-42 | what names look like, with and without a directory and a role |
| SystemProcesses.MatchedIff | agent/internal/process/system_process.go:53-67 | a PID matches exactly if the listed process with it is of the directory and role |
| SystemProcesses.FoundIff | agent/internal/process/system_process.go:38-49 | what is found is in the list and matches, and nothing is found only if nothing matches |
| CommandLines.WordsOfParts | agent/internal/process/system_process.go:191 | white space parts the words before it from those behind it |
| CommandLines.FirstRoleCounts | agent/internal/process/system_process.go:190-204 | the role of a process is the known one behind the first `-r` that has one |
| CommandLines.NoRoleIsHybrid | agent/internal/process/system_process.go:190-204 | without any it is the default one |
| CommandLines.TrailingSlash | agent/internal/process/system_process.go:173-177 | a slash at the end of a directory does not count |
| CommandLines.QuotedDir | agent/internal/process/system_process.go:173-177 | nor do quotes around it |
| CommandLines.MentionsIff | agent/internal/process/system_process.go:145-171 | a command line belongs to a directory exactly if it has one of six settings or paths of it |
| CommandLines.IsOfIff | agent/internal/process/system_process.go:134-142 | a process is of a directory and role exactly if it runs the server, belongs to the directory, if one is given, and was started for the role |
| CommandLines.MatchInIff | agent/internal/process/system_process.go:53-67 | inspection fails exactly for a positive PID without a list, and accepts a PID exactly if the process with it matches |
| Settling.SameNameMeans | agent/internal/process/system_process.go:134-188 | two processes of one managed name are of the same directory and role for inspection, or one of them is of any directory and the default role |
| Settling.ListedUpdateSettles | agent/cmd/main.go:2427-2518 | on a host that answers from one list of command lines, or cannot get one, every update settles, whatever roles and directories are listed, unless two directory digests collide |
| Collisions.CollisionDoesNotSettle | agent/cmd/main.go:2427-2518 | with a collision: a list of two processes, and three running ones of which one belongs to both directories, for which an update does not settle |
| Collisions.ProcessesCanOverlap | agent/internal/process/system_process.go:134-204 | command lines of three such processes |
| Collisions.CollisionCanHappen | agent/cmd/main.go:2427-2518 | so for two directories of one digest there are a host, a table and an update that does not settle |
| Reconcile.UpdatesCommuteIff | agent/cmd/main.go:2431-2473 | updates for two clusters with disjoint names commute exactly if every process of each list is independent of the other cluster |
| Reconcile.UpdatesOfOwnClustersCommute | agent/cmd/main.go:2431-2473 | in particular if all listed processes and the entries under their names belong to the list's cluster |
| Reconcile.ForeignProcessDoesNotCommute | agent/cmd/main.go:2444-2450 | a listed process that carries the other cluster's number breaks commutation |
| LogWindow.GoverningIsNearest | agent/cmd/main.go:1845-1856 | the timestamp that governs a line is that of the nearest timestamped line at or before it |
| LogWindow.KeptInOrder | agent/cmd/main.go:1858-1869 | the kept lines are lines of the content, in order, of which these are the numbers |
| LogWindow.KeptIff | agent/cmd/main.go:1843-1869 | a line is kept exactly if no line up to it has a timestamp, or the nearest one is not before the start and not behind the end |
| LogWindow.Append | agent/cmd/main.go:1846-1852 | a Go append: in place while there is room, otherwise into a new array that leaves old pointers behind |
| LogWindow.AppendLine | agent/cmd/main.go:1834-1841 | a line without a timestamp joins the last entry through the pointer, and the pointer denotes the last entry again |
| LogWindow.GroupLines | agent/cmd/main.go:1843-1856 | the loop builds the entries; `current` always denotes the last element, across growth of the slice |
| LogWindow.SelectLines | agent/cmd/main.go:1858-1869 | the second loop keeps the lines of the entries inside the inclusive window |
| LogWindow.GroupingRefines | agent/cmd/main.go:1843-1869 | grouping into entries and filtering entries keeps exactly the lines that the per-line specification keeps |
| LogWindow.FilterContent | agent/cmd/main.go:1819-1871 | the whole filter equals the per-line specification |
| LogWindow.KeptOfKept | agent/cmd/main.go:1843-1869 | filtering kept lines again keeps those of the intersected window |
| LogWindow.FilterTwice | agent/cmd/main.go:1819-1871 | filtering by one window and then another equals filtering by their intersection, through the trimming and splitting in between |
| LogWindow.FilterUnbounded | agent/cmd/main.go:1819-1871 | with both bounds unset the result is the whole content, trimmed |
| ConfigRewrite.PersistConfig | agent/cmd/main.go:729-755 | the loop with its section flag rewrites the first interval line of a heartbeat section and nothing else |
| ConfigRewrite.InSectionMeaning | agent/cmd/main.go:733-744 | a line is in the section iff a line above mentions the heartbeat and none in between ends the section |
| ConfigLines.OpensIff | agent/cmd/main.go:736-739 | a line opens a section exactly if it has the word heartbeat in it, in upper or lower case |
| ConfigLines.ClosesIff | agent/cmd/main.go:741-743 | a line ends a section exactly if there is something on it, it does not start with a space or a tab, and is no comment |
| ConfigLines.HoldsIntervalIff | agent/cmd/main.go:745 | a line holds the interval exactly if that key stands behind its indentation |
| ConfigRewrite.DurationAddsUp | agent/cmd/main.go:747 | the hours, minutes and seconds that are written read back as the interval, in the shortest form |
| Text.DecimalDenotes | agent/cmd/main.go:2446 | a decimal numeral denotes its number, without leading zeros |
| ConfigRewrite.WrittenLine | agent/cmd/main.go:746-751 | the written line is recognised exactly as the one it replaces and has its indentation |
| ConfigRewrite.RewriteTouchesOneLine | agent/cmd/main.go:729-755 | at most one line changes, the line count stays, that line keeps its indentation and is found again |
| ConfigRewrite.PersistAbsorbs | agent/cmd/main.go:729-755 | persisting d1 and then d2 gives the text of persisting d2 alone |
| LeadingComment.ScanPrefix | scripts/add_apache_license.py:120-137 | the loop with its flag finds the end of the build-constraint prefix |
| LeadingComment.SplitGoBuildConstraintPrefix | scripts/add_apache_license.py:115-137 | splits the text at that point |
| LeadingComment.ScanComment | scripts/add_apache_license.py:153-164 | the loop collects the comment lines and the blank lines between and after them |
| LeadingComment.ExtractLeadingComment | scripts/add_apache_license.py:140-165 | the leading comment, after a byte order mark, a shebang line and a build-constraint prefix |
| LeadingComment.KindOfBody | scripts/check_license.py:227-236 | a line is of the same kind with and without its line break |
| OrdinaryHeaders.KindOfIndented | scripts/add_apache_license.py:120-164 | the kind of a line by what stands behind its indentation |
| OrdinaryHeaders.BlockCommentIsRead | scripts/add_apache_license.py:149-151 | a block comment at the start of any file is what is read, whatever follows it |
| OrdinaryHeaders.MitBlockIff | scripts/add_apache_license.py:168-174 | a file with such a comment is MIT exactly if the comment says so |
| OrdinaryHeaders.ApacheBlock | scripts/add_apache_license.py:168-174 | and else Apache if the comment has one of the markers |
| OrdinaryHeaders.LicenseInLine | scripts/add_apache_license.py:168-174 | a marker in the first comment line of a file is recognised, in either style, whatever the file is |
| OrdinaryHeaders.OpenBlockIsRead | scripts/add_apache_license.py:151 | of a block comment that is not closed the first 4096 characters are read |
| OrdinaryHeaders.BomIsPassedOver | scripts/add_apache_license.py:141 | byte order marks before the comment do not matter |
| OrdinaryHeaders.ShebangIsPassedOver | scripts/add_apache_license.py:142-144 | nor does a shebang line |
| PyText.LinesOfAppend | scripts/add_apache_license.py:116 | the lines of two texts joined at a line break are the lines of either |
| HeaderRoundTrip.PrefixBeforeHeader | scripts/add_apache_license.py:207-211 | a build-constraint prefix that ends its last line is found again in front of the header |
| HeaderRoundTrip.BlockIsApache | scripts/add_apache_license.py:149-151 | a block header is read as Apache where the comment is expected, whatever follows |
| HeaderRoundTrip.GluedIsNoLicense | scripts/add_apache_license.py:207-211 | glued to an open build constraint or blank line the header is not read at all |
| HashRoundTrip.LeadAtHeader | scripts/add_apache_license.py:153-165 | what is read at a hash header is the header, a blank line and what leads the rest of the file |
| HashRoundTrip.RestWithoutMit | scripts/add_apache_license.py:168-174 | if the file had no license, nothing that leads the rest of it has the MIT marker |
| HashRoundTrip.HashIsApache | scripts/add_apache_license.py:168-174 | a hash header is read as Apache although the file's own comment follows it |
| Headers.BlockHeaderIsOne | scripts/add_apache_license.py:48-63 | the block header that the script carries closes once, at its end, names the foundation and has no MIT marker |
| Headers.HashHeaderIsOne | scripts/add_apache_license.py:65-78 | each line of the hash header that the script carries is a comment line without the MIT marker, the first one names the foundation |
| Headers.ScriptReadsBackIff | scripts/add_apache_license.py:140-214 | inserter and detector agree on the script's own headers, exactly unless the header is glued |
| LicenseInserter.InsertedReadsApacheIff | scripts/add_apache_license.py:140-214 | a text without a license reads as Apache after insertion, never as MIT, exactly unless the header was glued; then it still reads as none |
| LicenseInserter.GluedOnce | scripts/add_apache_license.py:201-214 | an insertion is never glued to a text that an insertion has made |
| LicenseInserter.LoneConstraintIsGlued | scripts/add_apache_license.py:207-211 | a concrete glued file |
| LicenseInserter.InsertionKeepsContent | scripts/add_apache_license.py:201-214 | the header is one block between two parts of the text, between which only line feeds were lost; a shebang line without one is given one |
| TextMode.LinesReadAlike | scripts/check_license.py:240-253 | in text mode any text has lines of the same kinds, and the same without their breaks |
| TextMode.PrefixReadsAlike | scripts/check_license.py:187-209 | in text mode the build-constraint prefix of any text is the same, read in text mode |
| TextMode.InsertedReadsAlike | scripts/check_license.py:240-253 | after an insertion the checker, reading in text mode, finds what the inserter finds, whatever carriage returns there are, unless the shebang line goes on behind one |
| HiddenHeaders.ReadBehindReturn | scripts/check_license.py:212-253 | a shebang line that goes on behind a carriage return, not with a block comment: exactly what the checker reads after an insertion, for either kind of header |
| HiddenHeaders.ReadBlockBehindReturn | scripts/check_license.py:222-224 | with a block comment there: that is what is read, alone if it is closed on that line |
| HiddenHeaders.OpenBlockTakesHeader | scripts/check_license.py:222-224 | a block comment that is opened there and not closed takes a block header in, so that Apache is read unless it has the MIT marker |
| HiddenHeaders.CodeHidesHeader | scripts/check_license.py:226-237 | code there hides the header |
| HiddenHeaders.LoneReturnHidesHeader | scripts/check_license.py:240-253 | a concrete script in whose result the inserter's detector reads Apache and the checker nothing |
| SourceTree.UniquePaths | scripts/add_apache_license.py:251-259 | the loop yields the stripped, non-empty, supported paths in order of first mention |
| SourceTree.UniqueIsExact | scripts/add_apache_license.py:93-97 | a path is in the list iff it is the stripped form of one given, not empty, of a supported suffix and under no excluded name; once each |
| PathNames.SuffixOfDotted | scripts/add_apache_license.py:95 | the suffix of a name starts at its last dot, if something stands on either side of it |
| PathNames.NoSuffixIff | scripts/add_apache_license.py:95 | and in every other case there is none |
| PathNames.PartsOfJoin | scripts/add_apache_license.py:94-97 | the parts of a path are the names between its slashes |
| PathNames.PartsOfRooted | scripts/add_apache_license.py:94-97 | below a root if it starts with one or two slashes |
| PathNames.RedundantParts | scripts/add_apache_license.py:94-97 | a doubled slash, a single dot or a slash at the end adds no part |
| PathNames.FileIsSupportedIff | scripts/add_apache_license.py:93-97 | a file is supported exactly if its last name has one of the eleven suffixes, in any case, and none of its names is excluded |
| PathNames.TakenUpIff | scripts/add_apache_license.py:251-259 | a path is in the list exactly if it is that of such a file and is given |
| PathNames.GivenIsTakenUp | scripts/add_apache_license.py:251-259 | so each such path that is given, with any white space around it, is in the list |
| PathNames.HeaderGoesBySuffix | scripts/add_apache_license.py:192-198 | the kind of header goes by the suffix |
| SourceTree.Tree.AddHeader | scripts/add_apache_license.py:268-294 | one turn: skip a missing, Apache or MIT file, else write the header between byte order mark and text, or only say so in a dry run |
| SourceTree.Tree.AddHeaders | scripts/add_apache_license.py:265-298 | the loop visits each path; what it says of each, both counters, and the resulting files |
| SourceTree.Tree.Run | scripts/add_apache_license.py:251-298 | the same from the raw list of paths |
| TreeRuns.TextOfVisited | scripts/add_apache_license.py:177-189 | reading after writing gives the new text and the same byte order mark |
| TreeRuns.UpdatedIff | scripts/add_apache_license.py:268-294 | a file is said to be updated exactly if its visit changes it |
| TreeRuns.CountIsNumber | scripts/add_apache_license.py:265-298 | the counter is the number of files said to be updated |
| TreeRuns.VisitsSettle | scripts/add_apache_license.py:265-294 | from the second visit of a file on nothing changes, and from the first unless it is a glued one |
| TreeRuns.RunAt | scripts/add_apache_license.py:265-294 | each file ends up as its own visits leave it, through whatever spellings of its path; the others are untouched |
| TreeRuns.SecondRunIsIdleIff | scripts/add_apache_license.py:240-298 | a second run of the tool changes nothing, exactly if no file without a license was visited once and glued |
| TreeRuns.ThirdRunIsIdle | scripts/add_apache_license.py:240-298 | a third run never changes anything |
| LicensePolicy.DedupeChanges | scripts/check_license.py:152-156 | the loop builds the dictionary of changes by path |
| LicensePolicy.DedupedPaths | scripts/check_license.py:152-156 | the deduplicated changes have the paths in order of first mention, once each |
| LicensePolicy.LastIsKept | scripts/check_license.py:152-156 | the last change of a path is kept |
| LicensePolicy.KeptIsLast | scripts/check_license.py:152-156 | every change that is kept is the last one of its path |
| LicensePolicy.CheckChanges | scripts/check_license.py:315-341 | the policy loop files each change as an error, a notice or ignored, in order |
| LicensePolicy.ErrorIff | scripts/check_license.py:315-341 | an error is reported iff some change is judged so: an added file that is not Apache, or a legacy file that is not MIT |
| LicensePolicy.PolicyIff | scripts/check_license.py:315-341 | the one change of a supported path is reported exactly if it is about an added file that does not read as Apache, or about another that is on the list, by its own or its old path, and does not read as MIT |
| LicensePolicy.UnsupportedIsIgnored | scripts/check_license.py:300-301 | a change of a path that is not supported is never reported |
| LicensePolicy.NoticeIff | scripts/check_license.py:315-341 | a notice is about a change that is in order |
| LicensePolicy.EachIsFiled | scripts/check_license.py:315-341 | each change is filed once |
| LicensePolicy.VerboseIsHarmless | scripts/check_license.py:340-341 | being verbose changes no error and no notice |
| LicensePolicy.DetectedAfterRun | scripts/check_license.py:240-253 | what the checker finds in a file after a run that visited it: Apache where the inserter found no license, unless it left the file out, and otherwise what it would have found before |
| LicensePolicy.InsertedPassesIff | scripts/check_license.py:315-327 | after the inserter, an added file, whose shebang line does not go on behind a carriage return, is an error iff it carried another license than Apache already or was left out as glued |
| LicensePolicy.ErrorsAfterInserter | scripts/check_license.py:300-327 | for a whole list of changes, the errors about added files are exactly those that carried another license, if the inserter was given them all and left none out |
| LicensePolicy.MitErrorsAfterInserter | scripts/check_license.py:300-327 | for an added file without carriage returns: an error exactly if it was MIT already |
| LicensePolicy.GivenIsVisited | scripts/add_apache_license.py:251-265 | each supported path given to the inserter, with whatever white space around it, leads to a visit of its file |
| Manifests.StepIsApply | scripts/merge-deps-manifest.py:50-83 | merging one fragment succeeds exactly if it fits, and is one change: node assets, tarballs and single fields |
| Manifests.ApplyTwice | scripts/merge-deps-manifest.py:50-83 | two changes in turn are one, the later winning |
| Manifests.MergeIsOneChange | scripts/merge-deps-manifest.py:47-90 | the whole merge in closed form, with both of its failures |
| Manifests.MergeInTwoGoes | scripts/merge-deps-manifest.py:47-90 | merging fs and then gs equals merging fs + gs in one call, for every outcome of either |
| Manifests.MergeAgain | scripts/merge-deps-manifest.py:47-90 | merging the same fragments again, into the result or in the same call, changes nothing but the build time |
| ManifestEntries.NodeBuiltIff | scripts/merge-deps-manifest.py:55-64 | the node assets of a fragment are those of its version whose file exists, each with its own entry |
| ManifestEntries.LastWriterCounts | scripts/merge-deps-manifest.py:50-83 | the last fragment that has a key decides its value |
| ManifestEntries.MergedEntries | scripts/merge-deps-manifest.py:47-90 | each node asset and architecture holds what the last fragment that built it says, or else what it held |
| ManifestEntries.UnbuiltNodeIsPreserved | scripts/merge-deps-manifest.py:58-67 | a node asset not built in this run keeps its old value |
| ManifestEntries.UnbuiltTarballIsPreserved | scripts/merge-deps-manifest.py:73-82 | an architecture not built in this run keeps its old value |
| ManifestEntries.OtherFieldIsPreserved | scripts/merge-deps-manifest.py:47-90 | every field the merge does not know keeps its value |
| ManifestEntries.ReportedExists | scripts/merge-deps-manifest.py:60-85 | every reported asset is a file in the assets directory |
| ManifestEntries.NodeAssetIsRecorded | scripts/merge-deps-manifest.py:58-67 | every node asset built is recorded with the entry of the last fragment that built it |
| ManifestFields.WrongShapeIff | scripts/merge-deps-manifest.py:57-78 | a key is of the wrong shape exactly if it holds a truthy value that is not an object |
| ManifestFields.NodeEntryIs | scripts/merge-deps-manifest.py:51-64 | under the name of a package the merged manifest has the version, major version, variant and architecture that the last fragment with that package gives |
| ManifestFields.NodeFieldIs | scripts/merge-deps-manifest.py:65-69 | the three version fields hold the values of the last fragment with a package |
| ManifestFields.NodeFieldStays | scripts/merge-deps-manifest.py:65-69 | and stay as they were if there is none |
| ManifestFields.ToolFieldIs | scripts/merge-deps-manifest.py:81-83 | the field of each tool holds the value of the last fragment that built a tarball and has a truthy one |
| ManifestFields.ToolFieldStays | scripts/merge-deps-manifest.py:81-83 | and stays as it was if there is none |
| ManifestFields.ReportedIff | scripts/merge-deps-manifest.py:60-85 | an asset is reported exactly if some fragment built it |
| ManifestEntries.TarballIff | scripts/merge-deps-manifest.py:72-85 | an architecture ends with a tarball exactly if the last fragment to build one for it names it, or none does and it had it before |
| ManifestEntries.RecordedIff | scripts/merge-deps-manifest.py:58-85 | an asset is recorded exactly if it had a node entry, some fragment built it for node, or some architecture ends with it |
| ManifestEntries.ReportedIsRecorded | scripts/merge-deps-manifest.py:58-85 | if no two fragments build different tarballs for one architecture, every reported asset is recorded |
| ManifestEntries.OverwrittenTarball | scripts/merge-deps-manifest.py:80-85 | two fragments after which a reported tarball is not recorded |
| ManifestMerger.Manifest.CopyAt | scripts/merge-deps-manifest.py:58 | a copy of the nested dictionary, empty if there is none; fails on anything else |
| ManifestMerger.Manifest.MergeNode | scripts/merge-deps-manifest.py:51-69 | the node part of one turn, on a fresh copy of the nested dictionary |
| ManifestMerger.Manifest.MergeObservability | scripts/merge-deps-manifest.py:72-85 | the observability part of one turn |
| ManifestMerger.MergeManifests | scripts/merge-deps-manifest.py:47-90 | the merge on dictionaries held by reference: a new manifest as specified, and the one passed in, with its nested dictionaries, as it was |

## Left out

- Permissions, symbolic links and files that are not regular: `os.Stat` is membership in the map of files, and a working directory that cannot be read is not modelled.
- JarHandlers.JarHost.Glob: metacharacters in the name of the target directory and read errors of the directory are not modelled; the order of the matches is left open.
- JarHandlers.JarHost.UpdateProxyJars: one jar command at a time; the source takes no lock between two of them. The installation directories and the search for the target directory and the running jars are parameters.
- JarHandlers.JarHost.RestartRunningProxies: stopping, launching and probing proxies is reduced to how often the undo is run.
- SelfUpdate: the trial watcher of a new process, which rolls back without the mutex, is not one of the tasks; a package is its bytes, their digest and the version it reports; computing SHA-256 and normalising versions are not modelled; the temporary copy of the backup is part of the step that makes it.
- Settling.ReconcileTwice: answers that change between the inspections of one update, as when a process ends in between.
- SystemProcesses.MatchedIff: running the system's process listing and parsing its output; how letters are lowered and digests computed are parameters.
- Reconcile.Agent.HandleUpdateMonitorConfig: the table is a map of values; the monitor's own loop, restart settings, the monitor interval, the time of the last check and the update of diagnostics targets are not modelled. A list that cannot be parsed is the same as none.
- LogWindow.FilterContent: the regular expression and the time zones are behind an abstract recogniser; instants are integers.
- ConfigRewrite.PersistConfig: reading and writing the file can fail before or after the rewrite, which is not modelled; intervals are whole seconds, as they are set from the Control Plane.
- LeadingComment: the checker carries a copy of this parser that does the same; it is modelled once.
- SourceTree.Tree.AddHeader: bytes that are not UTF-8, for which the inserter stops and the checker ignores them.
- SourceTree.Tree.Run: two paths denote the same file iff they have the same parts; `..`, symbolic links and a relative path beside its absolute form are not resolved. The suffix of a name follows Python up to 3.13. Paths taken from git are part of the list.
- LicensePolicy.InsertedPassesIff: a file without a license whose shebang line goes on behind a carriage return; what the checker reads there is stated by itself.
- HiddenHeaders.ReadBehindReturn: Go files with a shebang line, where build constraints could follow the return as well.
- LicensePolicy.CheckChanges: reading the allowlist, its check for missing entries, parsing of git's output and the printed report.
- Manifests.MergeIsOneChange: the order of keys in an object and of the reported assets is not modelled, and a truthy list of pairs, which Python would turn into a dictionary, counts as the wrong shape.
- ManifestMerger.MergeManifests: loading, writing and printing.
- Start, stop and restart handlers, event reporting, gRPC transport, the installer, dumps, log listing, database checks, generated code and the user interface.
