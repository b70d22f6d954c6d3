# Verified model of the LEVEE control plane's protocols

LEVEE is a change-management CLI and server. This project models, in Dafny, the parts of it
where several operations, several processes or a crash have to fit together, and proves what
they keep over every run. Each module follows one component:

- `RunProtocol` (apply, link, plan, cancel, retry and the rollback repair racing on one run),
  `AgentLifecycle` (Start, Stop, the heartbeat goroutine and the task stream). Both are step
  machines: a state, a `Step` function, and theorems over every schedule of steps. A step that is
  not possible in a state leaves it alone, so a theorem about all schedules is a theorem about
  all interleavings.
- `DriftBaselines` and `DriftStore`: the baseline directory. The first holds the theory of a save
  as a set of intermediate directories, the second the loops over a mutable `Directory` object
  that also records every directory it passed through.
- `TenantRegistry`: the tenant file, rebuilt into a manager and written back by every command.
- `RestoreSafety`: `levee restore` with its safety snapshot, step by step, with every step
  allowed to fail.
- `ReleaseGate`, `RoadmapRows`, `RoadmapCheck`, `ReleaseVersions`: the polling release gate and
  the two document checkers.
- `ConverseRepl`, `PluginChannels`, `Paging`, `ApprovalOrder`, `ExitMarker`: the smaller loops.
- `Text`, `Decimals`, `Wrappers`: strings, printed numbers, and `Option`.

`dafny verify dfyconfig.toml` checks everything.

## Where the code and its words differ

- `cmd/levee/cmd_apply.go:93-96` says that the compare-and-set keeps a concurrent command from
  causing a second apply. `levee link` and `levee plan` (`internal/grpc/change_service.go:892-899`)
  write back the whole record they read, so they can, and so can a server that approves or resets
  the run again; `DoubleApplyExactly` says exactly when, for the commands acting alone and with
  other writers.
- `internal/agent/agent.go:322-324` says that Stop waits for the heartbeat loop and the task
  stream. It returns at once (`StopDoesNotWait`); `StopWaitsExactly` says when the promise holds.
  A heartbeat that is late can register the agent again after Start has deregistered it
  (`AgentEndState`, `LateHeartbeatIsReachable`).
- `internal/tenant/manager.go:105-133` treats a live and a deleted tenant of one name as
  legitimate, but refuses to restore the deleted one when it comes second, and the save order is
  that of a Go map. So after a name is reused a deleted tenant's record can disappear
  (`ReusedNameRun`); `AllTenantsSurviveExactly` and `KeepsAllExactly` say exactly when none can.
- `cmd/levee/cmd_drift.go:964-990` replaces files with `os.WriteFile`, which truncates first: a
  crash inside one write loses that one baseline (`TornWriteLosesOne`).
- `cmd/levee/cmd_backup.go:226-228` says that the pre-restore state can be recovered from
  `<db>.pre-restore`. Restoring from that very path overwrites it first and undoes nothing
  (`PreRestoreFileUndoesNothing`); restoring from a copy does (`CopyUndoes`). A failing rename
  comes after the write-ahead log is gone (`FailureAtRename`), and a log that cannot be removed is
  ignored and replayed over the restored file (`RestoreShownExactly`, `StuckLogIsReplayed`).
- `scripts/check_release_versions.py:180-187` compares versions by their numbers, so a chart can
  advertise one released tag and deploy another (`EqualNumbersOtherRelease`, `SameReleaseExactly`).
  A blank appVersion is reported by no rule (`BlankVersionPasses`).
- `cmd/levee/cmd_retry.go:88-95` caps retries at three by counting audit rows; `CapHoldsExactly`
  says when that is so.
- `scripts/check_roadmap_status.py:165-187` wants a status column anywhere but reads the last cell
  (`StatusColumnExactly`).
- `cmd/levee/serve_plugin_channel.go:33-37` says that a shadowing plugin is refused before any
  registration. Its own types are; plugins before it in the list stay registered
  (`UnchangedExactly`, `EarlierPluginStays`).

## Model

| member | source | states |
|---|---|---|
| `RunProtocol.AppliesAreGuarded` | cmd/levee/cmd_apply.go:81-107 | over every interleaving, each successful apply found the run approved, or pending or draft with --force, at the instant of the write; two successful applies are by different processes and have between them either a link or plan write of an admitted status read before the first, or an opening by another writer |
| `RunProtocol.WritesMean` | internal/state/sqlite.go:202-300 | over every schedule, the status words of every transition: what the store held or the command had read before a write, and what it holds after |
| `RunProtocol.ApplyAlone` | cmd/levee/cmd_apply.go:216-225 | an undisturbed apply stores running exactly from approved, and with --force from pending and draft; otherwise nothing changes |
| `RunProtocol.ApplySucceedsExactly` | cmd/levee/cmd_apply.go:98-107 | an apply with a reading in hand succeeds exactly when the stored status is still the one it read |
| `RunProtocol.CancelAlone` | cmd/levee/cmd_cancel.go:55-83 | an undisturbed cancel stores cancelled exactly from pending and draft |
| `RunProtocol.RetryUndisturbed` | cmd/levee/cmd_retry.go:83-122 | an undisturbed retry stores running and a row exactly from failed and paused with fewer than three rows |
| `RunProtocol.RepairAlone` | cmd/levee/cmd_rollback.go:93-108 | an undisturbed repair stores rollback_incomplete exactly from rolling_back |
| `RunProtocol.LinkAlone` | cmd/levee/cmd_link.go:49-61 | an undisturbed link changes the incident and nothing else |
| `RunProtocol.PlanAlone` | internal/grpc/change_service.go:631-710 | an undisturbed plan stores its fields, and a new plan of an approved run sends it back to draft |
| `RunProtocol.StepKeepsApplyInv` | internal/state/sqlite.go:202-300 | every step of every command, every failure and every write by anyone else keeps the invariant: guards hold for readings in hand, and an applied run is closed or has been reopened |
| `RunProtocol.AppliesBound` | cmd/levee/cmd_rollback.go:93-108 | successful applies are at most one more than the writes that can open the run; with no link and no plan process and no opening by others at most one |
| `RunProtocol.WritersWriteBack` | cmd/levee/cmd_link.go:49-61 | whatever a link stores was the stored record when it read, with only the incident changed, and the status a plan stores was the stored one then, so everything in between is undone |
| `RunProtocol.CommandsLetTwoApply` | internal/grpc/change_service.go:892-899 | a link or plan and two applies that accept the run's status: some schedule of these commands alone makes both applies succeed |
| `RunProtocol.CommandsKeepStatus` | cmd/levee/cmd_apply.go:216-225 | as long as only the modelled commands write and the run did not start approved, the only admitted status in the store, in hand or ever applied is the one it started with |
| `RunProtocol.WriterLetsTwoApply` | internal/grpc/change_service.go:892-899 | from every applicable run with a link or plan and two applies some schedule, in which others approve the open run before each apply and open no closed one, makes both succeed |
| `RunProtocol.OthersLetTwoApply` | internal/grpc/change_service.go:2611-2621 | any two applies can both succeed when another writer approves the run again in between |
| `RunProtocol.DoubleApplyExactly` | cmd/levee/cmd_apply.go:93-107 | a double apply is possible for the modelled commands acting alone if and only if a link or plan and two applies that accept the run's status race; when others may approve an open run and open no closed one, if and only if a link or plan and any two applies meet an applicable run; when others may do anything, if and only if there are two applies |
| `RunProtocol.AppliesCost` | cmd/levee/cmd_apply.go:98-107 | each apply closes the run and only a write-back or another writer opens it again, counted over any schedule from any state |
| `RunProtocol.RetryBound` | cmd/levee/cmd_retry.go:83-122 | with at most k retries between count and audit row, retries number at most 2 + k + lost audit rows minus the rows there at the start, whatever rows others add; none once the cap is reached; three when sequential and nothing is lost |
| `RunProtocol.CapHoldsExactly` | cmd/levee/cmd_retry.go:88-95 | the documented cap of three is kept if and only if retries run one at a time and no audit row is lost |
| `RunProtocol.StepKeepsRetryInv` | internal/retrybudget/retrybudget.go:36-53 | every step keeps: retries + rows of others = rows stored since the start + rows lost + retries not yet settled, and own rows plus retries in flight stay under cap - 1 + k |
| `RunProtocol.RetryBoundIsReached` | cmd/levee/cmd_retry.go:83-122 | the bound is tight: for every k >= 1 and every number of lost rows some schedule reaches it |
| `AgentLifecycle.AgentOrder` | internal/agent/agent.go:195-266 | for any number of concurrent Start and Stop calls one Start passes the guard; registration precedes every heartbeat and task, every task precedes deregistration, deregistration precedes the flip to offline, each happens once, and the loop is silent after it exits |
| `AgentLifecycle.StopStops` | internal/agent/agent.go:330-342 | a Stop that returned nil has cancelled the run context, unless Start had already wound down |
| `AgentLifecycle.StopWindsDown` | internal/agent/agent.go:330-342 | after a Stop that returned nil, from every reachable state, steps of Start and of the loop alone bring Start to its return and the loop to its exit |
| `AgentLifecycle.StopEndsTasks` | internal/agent/master_local.go:113-134 | after such a Stop at most one more task begins, and none unless Start was just asking for one |
| `AgentLifecycle.RefusedStart` | internal/agent/agent.go:196-224 | a Start that could not register leaves the agent offline, its context cancelled, no loop and no registration; none passes the guard without a master |
| `AgentLifecycle.StartRegisters` | internal/agent/master_local.go:62-72 | an undisturbed first Start registers the agent anew, whatever record was there |
| `AgentLifecycle.StartFails` | internal/agent/agent.go:218-224 | with a registration that fails it returns the failure and leaves no record |
| `AgentLifecycle.AgentEndState` | internal/agent/agent.go:253-259 | once Start returned and the loop exited, the record remains if and only if some registration was followed by neither the deregistration nor a removal; unless someone else removed it, if and only if a heartbeat looked the agent up after the deregistration; the status is offline if and only if no statistics were taken after the flip; a loop that exited first leaves neither |
| `AgentLifecycle.LateHeartbeatRevivesRecord` | internal/agent/master_local.go:81-93 | from every state with Start about to deregister and a heartbeat about to look up, some schedule ends with the record back |
| `AgentLifecycle.LateHeartbeatIsReachable` | internal/agent/heartbeat.go:76-103 | every fresh agent can reach that end state |
| `AgentLifecycle.StopDoesNotWait` | internal/agent/agent.go:322-342 | Stop returns nil while Start has not even registered |
| `AgentLifecycle.StopWaitsExactly` | internal/agent/agent.go:322-342 | in every reachable state, a Stop call returns nil only with everything wound down, under every schedule, if and only if everything had wound down before the call |
| `AgentLifecycle.StepKeepsInv` | internal/agent/agent.go:195-342 | every step of Start, Stop, the loop, the parent context and other registry users, who may remove the record, keeps the invariant that ties fields, registry and history |
| `AgentLifecycle.ExecKeepsInv` | internal/agent/agent.go:195-342 | so does every schedule |
| `DriftBaselines.AcceptKeepsWellFormed` | internal/drift/baseline.go:268-306 | a record that Set accepts is stored under its own normalised key, with valid host, name, id and time |
| `DriftBaselines.AcceptExactly` | internal/drift/baseline.go:72-104 | exactly which records Set accepts, in terms of host, name, items and id, and that the key is the trimmed host and the trimmed name or default with everything else unchanged |
| `DriftBaselines.ContributionExactly` | cmd/levee/cmd_drift.go:886-907 | exactly which directory entries a load looks at |
| `DriftBaselines.UnnamedLoadsAsDefault` | cmd/levee/cmd_drift.go:899-903 | a file without a name field loads as the default version of its host |
| `DriftBaselines.StemsAreValid` | cmd/levee/cmd_drift.go:965-968 | the entry-name check never refuses a stem of a well-formed manager |
| `DriftBaselines.StemsCollideExactly` | cmd/levee/cmd_drift.go:944-958 | two different keys share a stem if and only if the default version of one host reads as host and version of the other, or one host is the other with a dotted part more that the other has in front of its version name |
| `DriftBaselines.LoadMeaning` | cmd/levee/cmd_drift.go:886-907 | over any listing in byte order, what a load holds is exactly the winners: no claimant, no key; else the record of the lexically last claimant |
| `DriftBaselines.SaveThenLoad` | cmd/levee/cmd_drift.go:873-942 | a completed save followed by a load gives the manager back, whatever the directory held before |
| `DriftBaselines.SecondSaveChangesNothing` | cmd/levee/cmd_drift.go:964-990 | a second save leaves the directory the same at every one of its points |
| `DriftBaselines.CrashSafe` | cmd/levee/cmd_drift.go:964-990 | at every point between file operations a kept baseline that is backed loads with its old or its new record and is not lost |
| `DriftBaselines.CrashSafetyExactly` | cmd/levee/cmd_drift.go:964-990 | from any directory, a kept baseline survives every crash point if and only if it is backed: nobody claims it, or some claiming file is wanted by no other baseline and it and all later claimants hold the old or the new record |
| `DriftBaselines.BackedWhenUnique` | cmd/levee/cmd_drift.go:964-990 | with one file for each baseline, backed means that no other baseline wants that file |
| `DriftBaselines.DisturbedIsLost` | cmd/levee/cmd_drift.go:965-972 | if others want every file that claims a baseline, some crash point loses it |
| `DriftBaselines.DisturbedShows` | cmd/levee/cmd_drift.go:965-972 | if others want every claimant after a file, some crash point loads that file's record |
| `DriftBaselines.NothingRemovedEarly` | cmd/levee/cmd_drift.go:974-988 | a file is gone only when every wanted file is in place with its new content |
| `DriftBaselines.RemovalIsInOrder` | cmd/levee/cmd_drift.go:978-988 | while an old claimant survives the removals, every later claimant that no other baseline wants survives too |
| `DriftBaselines.CanonicalCrashSafe` | cmd/levee/cmd_drift.go:964-990 | from a canonical directory every kept key loads old or new at every point, and nothing loads that was neither there nor wanted |
| `DriftBaselines.CompletedIsCanonical` | cmd/levee/cmd_drift.go:911-942 | a completed save leaves a canonical directory, so the next save starts from one |
| `DriftBaselines.TornWriteLosesOne` | cmd/levee/cmd_drift.go:969-971 | from any directory, a half-written file loses its own baseline if and only if every other file that claimed it has been overwritten, and leaves every other backed baseline safe |
| `DriftStore.Directory.WriteFile` | cmd/levee/cmd_drift.go:969-971 | success gives the file its content; every directory passed through holds a prefix of it and is otherwise the old one |
| `DriftStore.Directory.Remove` | cmd/levee/cmd_drift.go:985-987 | removes that file or changes nothing |
| `DriftStore.Directory.RemoveStale` | cmd/levee/cmd_drift.go:974-989 | from fully written to completed, passing only through points of the save |
| `DriftStore.Directory.SyncJSONDir` | cmd/levee/cmd_drift.go:964-990 | passes only through points of the save, completes it on success, and succeeds only when every stem is a plain file name |
| `DriftStore.SaveBaselines` | cmd/levee/cmd_drift.go:915-942 | refuses with a collision if and only if two keys share a stem, before any file changes; otherwise the directory is reconciled with the encoded records |
| `DriftStore.LoadBaselines` | cmd/levee/cmd_drift.go:873-909 | a key loads if and only if some file claims it, and with the record of the lexically last claimant |
| `DriftStore.SaveAndLoad` | cmd/levee/cmd_drift.go:873-942 | a save that reports success, then a load, returns the saved map |
| `DriftStore.SortNames` | cmd/levee/cmd_drift.go:974-978 | the directory listing: every name once, strictly ascending |
| `TenantRegistry.ParseStatusName` | internal/tenant/tenant.go:75-95 | a written status word is read back as the status |
| `TenantRegistry.ParseStatusExactly` | internal/tenant/tenant.go:86-95 | status words are read in any case and with white space around them |
| `TenantRegistry.LoadMeaning` | cmd/levee/cmd_tenant.go:284-326 | a load of a good file succeeds and holds exactly the records not shadowed by a live one of the same name, as written |
| `TenantRegistry.LoadInv` | cmd/levee/cmd_tenant.go:284-326 | whatever file is loaded, the manager is in order: keys agree, every name has one live holder, quotas are valid |
| `TenantRegistry.SkippedExactly` | internal/tenant/manager.go:105-133 | a record is skipped if and only if it is a deleted tenant's and a live one of its name comes earlier |
| `TenantRegistry.RecordTakenExactly` | cmd/levee/cmd_tenant.go:284-326 | exactly which further record a load takes, in terms of its fields and the tenants before it, and the tenant it becomes |
| `TenantRegistry.SaveThenLoadLive` | cmd/levee/cmd_tenant.go:330-355 | every live tenant with its quota survives a save in any order and the next load, and none appears |
| `TenantRegistry.ApplyRefines` | internal/tenant/manager.go:194-297 | each command keeps the manager's invariant and does to the live tenants what it does to a plain map |
| `TenantRegistry.ResumeOnFile` | internal/tenant/manager.go:227-250 | on the file: a suspended tenant becomes active without its reason, an active one stays as it is, all others too |
| `TenantRegistry.SuspendOnFile` | internal/tenant/manager.go:194-222 | on the file: the three reason cases of suspend, all others unchanged |
| `TenantRegistry.QuotaOnFile` | cmd/levee/cmd_tenant.go:672-716 | on the file: every given limit is the new one, every other the old; a negative result changes nothing |
| `TenantRegistry.DeleteOnFile` | internal/tenant/manager.go:255-275 | on the file: the tenant is listed as deleted with its name and reason and is no longer live, all others unchanged |
| `TenantRegistry.CreateOnFile` | internal/tenant/manager.go:49-84 | on the file: exactly which names and quotas are accepted, and the whole tenant that is stored |
| `TenantRegistry.LoadedAreValid` | internal/tenant/tenant.go:189-216 | every loaded tenant has an id, a proper name, the namespace of its name and no negative quota |
| `TenantRegistry.RunRefines` | cmd/levee/cmd_tenant.go:386-545 | from any file that loads, any commands and any save orders: the file loads again, and its live tenants, with names, status, reasons and quotas, are what the commands make of a plain map |
| `TenantRegistry.RunKeepsAll` | cmd/levee/cmd_tenant.go:386-545 | from an empty file, if no command makes a live tenant of a deleted one's name, no tenant is lost, deleted ones included, field by field |
| `TenantRegistry.KeepsAllExactly` | cmd/levee/cmd_tenant.go:284-355 | with fresh identifiers, every run has every tenant in its file after every command if and only if no command reuses a deleted tenant's name |
| `TenantRegistry.DistinctNamesSuffice` | cmd/levee/cmd_tenant.go:386-410 | it is enough that no name is created twice |
| `TenantRegistry.AllTenantsSurviveExactly` | internal/tenant/manager.go:105-133 | every save order keeps every tenant if and only if no live tenant has taken a deleted one's name |
| `TenantRegistry.ReuseLosesRecord` | cmd/levee/cmd_tenant.go:330-355 | with a reused name some save order loses the deleted tenant |
| `TenantRegistry.ReusedNameRun` | cmd/levee/cmd_tenant.go:386-545 | create, delete, create again under one name: a run whose last file holds a record its load skips |
| `TenantRegistry.TenantManager.Restore` | internal/tenant/manager.go:105-133 | refuses an invalid or known tenant, a name held by a live one or an invalid quota; else stores tenant, quota and, unless deleted, the name |
| `TenantRegistry.TenantManager.Create` | internal/tenant/manager.go:49-84 | refuses an invalid or taken name or quota; else stores tenant, name and quota |
| `TenantRegistry.TenantManager.Suspend` | internal/tenant/manager.go:194-222 | refuses a missing or deleted tenant; else suspends it, keeping the reason unless a new one is given |
| `TenantRegistry.TenantManager.Resume` | internal/tenant/manager.go:227-250 | refuses a missing or deleted tenant; else activates it and clears the reason |
| `TenantRegistry.TenantManager.Delete` | internal/tenant/manager.go:255-275 | marks the tenant deleted, frees its name and drops its quota; deleting again changes nothing |
| `TenantRegistry.TenantManager.UpdateQuota` | internal/tenant/manager.go:280-297 | merges the patch into the quota of a live tenant and refuses an invalid result |
| `TenantRegistry.TenantManager.LoadRegistry` | cmd/levee/cmd_tenant.go:284-326 | the loop that rebuilds the manager; fails exactly on an unknown status word |
| `TenantRegistry.TenantManager.SaveRegistry` | cmd/levee/cmd_tenant.go:330-355 | lists every tenant exactly once with its quota, in the order the map happens to give |
| `TenantRegistry.RunCommand` | cmd/levee/cmd_tenant.go:360-410 | one invocation, on any file, is one step of a run: load, change, save on success, unchanged file on refusal or failed load; a written file is always good |
| `RestoreSafety.SnapshotMeans` | cmd/levee/cmd_backup.go:229-249 | taking the snapshot, failed or not, leaves the live database and all foreign files alone; on success the pre-restore file is the live database |
| `RestoreSafety.ReplaceMeans` | internal/backup/backup.go:220-258 | the replacement puts the backup in place or leaves the database file, and short of the rename leaves the live database |
| `RestoreSafety.SuccessfulRestore` | cmd/levee/cmd_backup.go:169-224 | for an input outside the database's own files the database file is the backup, a reader sees the backup if the journals could be removed, the pre-restore file is the former database and no foreign file changed |
| `RestoreSafety.RestoredIsGenuine` | internal/backup/backup.go:317-340 | a successful restore restored a backup whose recorded digest is its digest and that passed the integrity check, over a sound database |
| `RestoreSafety.RestoreSucceedsExactly` | internal/backup/backup.go:220-258 | without faults, exactly which inputs are restored |
| `RestoreSafety.FaultsFail` | internal/backup/backup.go:161-258 | every fault the program looks at fails the run |
| `RestoreSafety.NoTempLeft` | internal/backup/backup.go:228-234 | the staged copy never stays behind |
| `RestoreSafety.FailedSnapshotHasNoSidecar` | cmd/levee/cmd_backup.go:239-247 | a failed snapshot leaves no sidecar of an earlier one |
| `RestoreSafety.SnapshotIsVerifiable` | internal/backup/backup.go:187-193 | the pre-restore file is the former database and its sidecar holds the digest line of it |
| `RestoreSafety.CopyIsGenuine` | internal/backup/backup.go:317-340 | a copy of both under another name passes the verification of a later restore |
| `RestoreSafety.RestoreShownExactly` | internal/backup/backup.go:250-281 | a reader of the restored database sees the backup if and only if no journal of the old one is left or replaying what is left changes nothing |
| `RestoreSafety.FailureBeforeRename` | internal/backup/backup.go:220-252 | any failure before the rename leaves the live database unchanged |
| `RestoreSafety.FailureAtRename` | internal/backup/backup.go:250-257 | at a failing rename the live database is unchanged if and only if its journals had been folded in or its file with the journals that stay shows the same; the pre-restore file still has it |
| `RestoreSafety.RenameFailureLosesLog` | internal/backup/backup.go:250-257 | a directory and a run in which that failure loses a change |
| `RestoreSafety.PreRestoreFileUndoesNothing` | cmd/levee/cmd_backup.go:238-248 | restoring from the pre-restore file overwrites it with the database as it is and shows that again, but for journals that stay |
| `RestoreSafety.CopyUndoes` | cmd/levee/cmd_backup.go:226-249 | a second restore from a copy of the pre-restore file shows what the first one replaced if and only if it leaves no journal that matters |
| `RestoreSafety.StuckLogIsReplayed` | internal/backup/backup.go:277-281 | a directory and a run in which a log that cannot be removed makes a successful restore show something else |
| `RestoreSafety.Disk.BackupSQLite` | internal/backup/backup.go:161-194 | the snapshot steps refine the function SnapshotMeans is about |
| `RestoreSafety.Disk.SnapshotPreRestore` | cmd/levee/cmd_backup.go:229-249 | the old snapshot and its checksum go first, then the new one is written |
| `RestoreSafety.Disk.RestoreSQLite` | internal/backup/backup.go:220-258 | the verify, stage, clean and rename steps refine the function ReplaceMeans is about |
| `RestoreSafety.Disk.RunRestore` | cmd/levee/cmd_backup.go:169-224 | the whole command refines the function the theorems above are about |
| `ReleaseGate.NewestMeaning` | scripts/require_ci_release.py:44-69 | nothing if and only if no candidate, a crash if and only if a candidate's id is not a number, else the first candidate with the greatest id |
| `ReleaseGate.NewestExactly` | scripts/require_ci_release.py:54-69 | being the newest candidate names the choice and only the choice |
| `ReleaseGate.AbsentRanksAsZero` | scripts/require_ci_release.py:54-54 | a candidate without an id ranks as id 0 |
| `ReleaseGate.ListingOrderIrrelevant` | scripts/require_ci_release.py:44-69 | with distinct ids the API's listing order does not matter |
| `ReleaseGate.UrlNamesOneRun` | scripts/require_ci_release.py:59-65 | a details URL matches two different runs only if it names runs at two places |
| `ReleaseGate.PassMeansSuccess` | scripts/require_ci_release.py:137-182 | a poll passes if and only if the newest run for the exact tag and commit and that run's newest aggregate check completed with success |
| `ReleaseGate.PassContains` | scripts/require_ci_release.py:44-69 | a passing poll contains a run of exactly this tag and commit and a check with the required name, by GitHub Actions, whose URL names that run, both completed with success |
| `ReleaseGate.GreenPasses` | scripts/require_ci_release.py:137-182 | a poll with one such run and one such check passes |
| `ReleaseGate.BeforeGoodRun` | scripts/require_ci_release.py:137-157 | a failed request or a finished run without success refuses; a missing or unfinished run waits |
| `ReleaseGate.AfterGoodRun` | scripts/require_ci_release.py:158-182 | the same for the aggregate check once the run is good |
| `ReleaseGate.WaitForReleaseCi` | scripts/require_ci_release.py:124-188 | for every answers and clock readings: passes if and only if the first decisive poll within the deadline shows success; the other outcomes are those of the first decisive poll; every poll made was in time |
| `ReleaseGate.PollBound` | scripts/require_ci_release.py:135-184 | if every sleep advances the clock by at least poll > 0, at most floor(timeout / poll) + 1 polls are made |
| `ReleaseGate.PollBoundIsReached` | scripts/require_ci_release.py:135-184 | for every timeout and interval a silent API makes exactly that many |
| `ReleaseGate.WaitEnds` | scripts/require_ci_release.py:136-188 | so the wait ends |
| `ReleaseGate.NoBoundWithoutSleep` | scripts/require_ci_release.py:183-184 | with interval 0 and a standing clock any number of polls can be made |
| `ReleaseGate.BoundedExactly` | scripts/require_ci_release.py:135-188 | for validated arguments the number of polls has a bound if and only if the interval is not 0 |
| `ReleaseGate.RunGate` | scripts/require_ci_release.py:211-239 | exit 0 if and only if the arguments are valid, the commit has one parent and the gate opens; otherwise 1 |
| `ReleaseGate.ValidArgsMean` | scripts/require_ci_release.py:211-219 | validated arguments are 40 hexadecimal digits, a v tag and times that are not negative |
| `ReleaseGate.RepositoryMeans` | scripts/require_ci_release.py:30-33 | a validated repository is an owner and a name around one slash |
| `RoadmapRows.RowsExactly` | scripts/check_roadmap_status.py:75-92 | the logical rows are the one list of ordered, disjoint, maximal intervals in which every pipe-leading line starts a row |
| `RoadmapRows.LineKindMeans` | scripts/check_roadmap_status.py:84-86 | a line leads when its first character is a pipe and is blank when it is white space only |
| `RoadmapRows.LogicalRows` | scripts/check_roadmap_status.py:75-92 | the two nested loops find them |
| `RoadmapRows.SplitExactly` | scripts/check_roadmap_status.py:95-97 | the split is the one way to cut the text at its unescaped pipes: joining gives it back, no part has a bare pipe, no cut is escaped |
| `RoadmapRows.CellsRoundTrip` | scripts/check_roadmap_status.py:95-103 | trimmed cells with escaped pipes come back from a well-formed row, empty ones included |
| `RoadmapCheck.KindMeaning` | scripts/check_roadmap_status.py:151-188 | a row is counted if and only if it is a data row with its header's cell count and a canonical last cell |
| `RoadmapCheck.TallyData` | scripts/check_roadmap_status.py:177-194 | a data row adds one to the total and either one count or one problem |
| `RoadmapCheck.TallyHeader` | scripts/check_roadmap_status.py:159-169 | a header records which tables were seen and complains about a missing status column |
| `RoadmapCheck.ReadRows` | scripts/check_roadmap_status.py:141-153 | the cells of every logical row of the text |
| `RoadmapCheck.RowTextJoins` | scripts/check_roadmap_status.py:152-152 | the lines of a row are joined by line breaks |
| `RoadmapCheck.CheckRows` | scripts/check_roadmap_status.py:144-207 | scope error if and only if no operations table was seen; otherwise total, counts per status and the ordered problem list are those of the rows |
| `RoadmapCheck.DataRowsAreAccountedFor` | scripts/check_roadmap_status.py:173-194 | every data row is counted or complained about, once |
| `RoadmapCheck.TotalIsCountsPlusProblems` | scripts/check_roadmap_status.py:177-194 | total = sum of the status counts + number of per-row problems |
| `RoadmapCheck.CleanExactly` | scripts/check_roadmap_status.py:196-207 | no problem and no scope error if and only if every data row is sound, every item table has a status column, the operations table is there and there are enough rows |
| `RoadmapCheck.CleanMeans` | scripts/check_roadmap_status.py:151-194 | in a clean roadmap every row under an item or operations header has the header's cell count and ends in closed, open, decided or blocked-on: with a name |
| `RoadmapCheck.StatusOkExactly` | scripts/check_roadmap_status.py:124-129 | the canonical statuses, spelled out |
| `RoadmapCheck.TablesExactly` | scripts/check_roadmap_status.py:110-121 | which headers are item tables and which the operations table |
| `RoadmapCheck.SeparatorExactly` | scripts/check_roadmap_status.py:106-107 | a separator row is cells of at least two dashes with optional colons |
| `RoadmapCheck.StatusColumnExactly` | scripts/check_roadmap_status.py:165-188 | counted rows have a canonical status in a given column, whatever their cells, if and only if it is the last column |
| `RoadmapCheck.RunCheck` | scripts/check_roadmap_status.py:210-227 | exit 0 if and only if clean, 2 if and only if the file or the operations table is missing |
| `ReleaseVersions.SectionsExactly` | scripts/check_release_versions.py:137-158 | the sections are, in order, exactly the maximal blocks from each version header to the line before the next bracketed header |
| `ReleaseVersions.HeaderVersionExactly` | scripts/check_release_versions.py:143-147 | a line is the header of a version exactly when it is that version, starting with a digit, in brackets after the header mark |
| `ReleaseVersions.ClosesExactly` | scripts/check_release_versions.py:151-151 | a section ends before any bracketed second-level header |
| `ReleaseVersions.ChangelogSections` | scripts/check_release_versions.py:137-158 | the one-pass parser with its open section returns them |
| `ReleaseVersions.ImageTagOf` | scripts/check_release_versions.py:116-134 | the tag of the first tag line inside an image block, and empty if and only if there is none |
| `ReleaseVersions.TagLine` | scripts/check_release_versions.py:131-133 | an indented tag line gives its word, quoted or not, whatever follows |
| `ReleaseVersions.BlockLinesExactly` | scripts/check_release_versions.py:124-130 | which lines open the image block and which leave it |
| `ReleaseVersions.NextNumber` | scripts/check_release_versions.py:83-84 | a version's numbers are the values of its maximal digit runs |
| `ReleaseVersions.OlderFirstDifference` | scripts/check_release_versions.py:225-225 | the first number that differs decides, and a version is older than its extensions |
| `ReleaseVersions.NewestTag` | scripts/check_release_versions.py:198-199 | a tag than which none is newer |
| `ReleaseVersions.NewerThanNewest` | scripts/check_release_versions.py:225-225 | newer than the newest tag if and only if newer than every tag |
| `ReleaseVersions.CheckSections` | scripts/check_release_versions.py:220-237 | no failure if and only if every section is tagged, not newer than every tag, or declared pending |
| `ReleaseVersions.CheckVersions` | scripts/check_release_versions.py:161-248 | exit 0 if and only if the appVersion line is there and is blank or names a released version numerically equal to the image tag, the image tag is a released tag, and all sections are in order |
| `ReleaseVersions.BlankVersionPasses` | scripts/check_release_versions.py:108-113 | every chart with a blank appVersion passes if its other claims hold, without advertising anything |
| `ReleaseVersions.AdvertisesExactly` | scripts/check_release_versions.py:180-218 | of the charts that pass, the version is released and equal to the image tag if and only if it is not blank, or a bare v is a tag and the image tag has no numbers |
| `ReleaseVersions.EqualNumbersOtherRelease` | scripts/check_release_versions.py:180-187 | a whole family of consistent charts that advertise one tag and deploy another |
| `ReleaseVersions.SameReleaseExactly` | scripts/check_release_versions.py:180-218 | every passing chart with a version deploys the tag it advertises if and only if tags with equal numbers are equal |
| `ConverseRepl.LinesExactly` | cmd/levee/cmd_converse.go:286-298 | the lines read are the one way to cut the input after its line breaks, an unterminated last line included |
| `ConverseRepl.Conversation.HandleCommand` | cmd/levee/cmd_converse.go:342-367 | recognises exactly the local commands; only a successful /new changes the session, and then session and id together |
| `ConverseRepl.Conversation.Process` | cmd/levee/cmd_converse.go:298-332 | a message is sent trimmed under the session before it; nothing else is sent |
| `ConverseRepl.Conversation.RunInteractive` | cmd/levee/cmd_converse.go:273-337 | for every input, ended by EOF or a read failure: exactly the messages before the first exit command are sent, in order, each under the session of the latest successful /new; a read failure drops the cut-off line |
| `PluginChannels.TypeNames` | cmd/levee/serve_plugin_channel.go:89-100 | the name first, every declared non-empty type once, in declaration order, nothing else |
| `PluginChannels.Registry.Install` | cmd/levee/serve_plugin_channel.go:38-83 | installs if and only if every channel plugin builds and no declared type is taken or shared; existing types keep their factory; on refusal exactly the channel plugins before the first unfit one are in, so the registry is unchanged if and only if there is none |
| `PluginChannels.UnchangedExactly` | cmd/levee/serve_plugin_channel.go:33-37 | a refusal leaves the registry as it was if and only if no channel plugin comes before the refused one |
| `PluginChannels.EarlierPluginStays` | cmd/levee/serve_plugin_channel.go:33-37 | two plugins of one name: the second is refused and the first stays registered |
| `PluginChannels.Registry.RegisterAll` | cmd/levee/serve_plugin_channel.go:74-77 | maps every given type to the factory and no other |
| `PluginChannels.CanInstallNext` | cmd/levee/serve_plugin_channel.go:61-73 | the check against the registry decides whether the next plugin conflicts with the start or an earlier plugin |
| `PluginChannels.OneOwner` | cmd/levee/serve_plugin_channel.go:61-77 | no type has two owners, and the registry names the owner |
| `Paging.ListAll` | cmd/levee/cmd_audit.go:352-373 | against any server that cuts a sequence into contiguous pages, empty ones included, the walk ends and returns the sequence; it fails if and only if a request of the walk fails |
| `Paging.Compact` | cmd/levee/cmd_target.go:262-270 | the in-place compaction leaves the filtered rows in front of the same array |
| `Paging.FilterExactly` | cmd/levee/cmd_target.go:264-268 | the filter keeps exactly the matching rows, each once and in order |
| `Paging.ListTargets` | cmd/levee/cmd_target.go:235-272 | the whole listing, or its matching rows in order |
| `ApprovalOrder.ListByRun` | cmd/levee/helpers.go:335-355 | the decodable records, a permutation with creation times descending and, at equal times, ids descending |
| `ApprovalOrder.SortedUnique` | cmd/levee/helpers.go:348-353 | two sorted permutations of records identified by their keys are equal |
| `ApprovalOrder.CanonicalExactly` | cmd/levee/helpers.go:330-355 | the order is canonical if and only if no two different records share creation time and id |
| `ApprovalOrder.StoreOrderIrrelevant` | cmd/levee/helpers.go:330-355 | records with distinct ids give the identical list from any two store orders |
| `ExitMarker.ExitCodeRoundTrip` | cmd/levee/root.go:153-166 | for every text in front, every text behind without a marker of its own and every 64-bit code, the printed code is read back |
| `ExitMarker.OverflowIsOne` | cmd/levee/root.go:159-165 | a printed number that does not fit a Go int gives 1 |
| `ExitMarker.BlanksAreSkipped` | cmd/levee/root.go:161-161 | blanks before the number are skipped, a line break is not |
| `ExitMarker.UnclosedIsNone` | cmd/levee/root.go:161-161 | a number that no bracket closes is no marker |
| `ExitMarker.PlusIsAccepted` | cmd/levee/root.go:161-161 | a plus sign is accepted |
| `ExitMarker.PrefixKeepsCode` | cmd/levee/root.go:159-164 | text put in front of a message with any marker changes nothing |
| `ExitMarker.OutermostMarkerDecides` | cmd/levee/root.go:157-164 | a marker appended by wrapping replaces all inner ones |
| `ExitMarker.UnmarkedIsOne` | cmd/levee/root.go:153-166 | a message without a marker means 1 |

## Left out

- Cluster leases, dispatch, the change engine, approval quorum, the hash chain and plan hashes are not part of this model.
- Engine-mode apply, `retry-host`, the cancel audit row and the actual rollback: only the status protocol of one run is modelled. Approvals, the server's retry and the engine are among the other writers of `RunProtocol`, who may write anything at any time.
- Without an approval service a plan records its tier before it resets the approval instead of after; the later reset is then a step of another writer.
- The run protocol and the agent lifecycle are step machines over values rather than objects changed in place, because their point is the interleaving; a mutex-guarded section is one step.
- Task contents and results, heartbeat miss counting, and the capacity numbers in a heartbeat do not influence the agent's lifecycle and are dropped.
- JSON and YAML: a codec enters `DriftBaselines` as an encode and decode pair whose round trip is an assumption of the lemmas that need it; the tenant file's codec is the identity except for status words.
- Job files use the same directory reconciliation as baselines; only baselines are stated.
- Tenant purge, listing, usage counters and context handling; identifiers are minted fresh.
- PostgreSQL backup and restore, the confirmation prompt, and a partly written snapshot of a failed `VACUUM INTO` (it is taken to leave no file).
- RestoreSafety.SuccessfulRestore: says nothing of what a reader sees when the input is one of the database's own files; for the pre-restore file `PreRestoreFileUndoesNothing` does.
- Regular expressions are written as predicates on ASCII text; Unicode white space, digits and letter case are not modelled. The search for a pending declaration and the appVersion line are inputs of the version check.
- `git`, GitHub and gRPC calls are inputs: any answer, any failure, any clock.
- Engine replies and the printed output of the conversation loop. The printers ignore write errors and return nil for every session there is (`cmd/levee/cmd_converse.go:376-495`), so they do not end the loop.
- Paths are compared as strings in `RestoreSafety`: another spelling of one of the database's own files counts as a foreign file.
- The HTTP, web and report layers, flag parsing and all printing.
- `scripts/check_blocked_items.py`, and the remote client plumbing, which has no property of its own.
- A second agent object registering under this agent's identifier; other registry users may remove the record but not add it.
