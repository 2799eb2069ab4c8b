# Sessions desktop: a verified model of its service lifecycle and small protocols

Sessions keeps a background daemon and its session runners alive while the desktop app installs it, updates it,
moves its port and uninstalls it again. This project models that layer and the small algorithms beside it, and
proves what they promise: a replacement either happens or is undone, live work keeps its bytes and its inventory
entry, files are always wholly old or wholly new, concurrent helpers neither deadlock nor lose a result, and every
printed form can be read back.

One module stands for one component:

| module | component |
|---|---|
| `Wrappers`, `Text` | options and results; separators, first occurrences, decimal numbers |
| `Budget` | overflow-checked time budgets |
| `AtomicFile` | replacing one file, with every intermediate disk state recorded |
| `Plist`, `Inventory`, `Launchd`, `Lifecycle`, `MutationLock` | the macOS service: definition, inventory, replacement with rollback, port change, the one lock |
| `RuntimeStaging`, `CliLink` | immutable runtime directories; the `sessions` command link |
| `Supervisor`, `CliPath`, `WindowsRunner`, `WindowsRuntime`, `WindowsPort` | the Windows logon definition, user PATH, pinned runner, install and handoff, port change |
| `Credentials`, `VaultJson`, `KeychainVault` | hexadecimal and protected vaults; the JSON of a vault; replacing the Keychain vault |
| `PipeRunner`, `PairingLink`, `WindowLabels`, `GeometryStore` | bundled CLI calls, pairing links, window labels and geometry |
| `FleetUpdates`, `ManagerTabs` | the provider update queue and the manager-tab walk |
| `LengthGate` | the Go function-length gate |

How things are modelled:

- Code that changes a machine step by step is a class whose methods change its fields. An external call (launchctl,
  the registry, HTTP, the file system) is a method whose outcome is chosen freely; a deadline is a poll budget
  chosen freely. What was observed, stopped and started is recorded in a ghost `trace`, and every disk state a crash
  could expose in `crashes`, so "seen unloaded before every start" and "old or new at every moment" are theorems
  about histories.
- Concurrent protocols (pipes, geometry writers, update workers, the mutation lock) are transition systems: `Enabled`
  and `Apply` give one atomic step of one participant, and the theorems quantify over every run.
- Texts are character sequences. JSON parsing, UTF-8, digests, DPAPI, URL parsing and the Go parser are function parameters,
  with the laws they are relied on for stated as predicates where they are used.

Findings:

- The comment at `src-tauri/src/lifecycle.rs:586-588` says an uninstall applies the same ownership test as the link
  installer. The installer also regards links into the bundled runtime as its own; the uninstaller does not. The
  model follows the code: `RemovalLeavesBundledLinks` says exactly which links stay, `BundledLinkSurvivesRemoval`
  shows one.
- The geometry file can end up older than memory: each writer takes its snapshot and renames in separate steps, and a
  delayed rename can overwrite a newer file. `QuiescentFileIsNewest` gives the exact condition,
  `DelayedRenameLosesTheNewerValue` a run without it.
- Installing the PATH entry again after an uninstall differs from installing it in place exactly when the PATH is not
  empty and its only foreign component is one empty string (`MergeAfterRemove`); a PATH of our entry and a trailing
  separator loses the separator (`TrailingSeparatorIsLost`).
- A Windows handoff whose stop or port release fails returns before any rollback: nothing is written, but the old
  daemon may be gone (`HandoffKeeps`; `RefusedStopMayLeaveNoDaemon` is one such call).
- A Windows port change can leave the registered port and the saved port apart in three ways:
  (1) its very last step, activating the new runner, fails and returns before the port is saved and without moving
  back (`FailedActivationSplitsThePorts`); (2) the settings cannot be read, so 8787 counts as the current port, 8787 is
  also the request, and the install writes the 8787 definition while another port stays saved
  (`UnreadableSettingsSplitThePorts`); (3) saving fails and the way back fails before it registers anything.
  `AgreesUnless`, which `WindowsPort.Owner.ReconfigurePort` ensures, says for every outcome whether ports that agreed
  still do; only where a rollback failed half way (`NotRestored`) does that depend on which of the two values is registered.
- On macOS too a call that cannot read the settings installs for 8787. `OrderAfter`, which `Lifecycle.Manager.Reconcile`
  and `ReconfigurePort` ensure, says exactly when a service in order stays so: unless such a call ended with a
  successful install while another port is saved (`UnreadSettingsEndTheOrder`).
- The Keychain size limit never turns a valid set away: the largest valid set takes 130 729 of the 131 072 bytes
  allowed, so a save that could not be verified always writes the previous set back (`FailedVerificationIsTakenBack`).
- The manifest inside a staged runtime is written without a sync, unlike the binaries; a crash can take it while the
  binaries survive (`CrashMayLoseTheManifest`).
- A manifest may name a version that is the name of another version's staging directory: every version name and
  process give such a one, as long as it is short enough (`VersionsMayLookLikeStaging`). Directories a staging left
  under such a name are the only ones at a version's name that can be incomplete.

## Model

| member | source | states |
|---|---|---|
| `Launchd.Machine.MigrateLoadedService` | src-tauri/src/lifecycle_service.rs:140-178 | under any failures: success has the new definition synced on disk and loaded with the whole baseline accounted for in one answer on the new port; "rolled back" the same for the old definition and port; even a double failure, and every crash on the way, leaves the file exactly as it was or exactly one of the two texts; the new definition was written and started right after the port was seen free |
| `Launchd.Machine.UpdateLoadedService` | src-tauri/src/lifecycle_service.rs:103-138 | the same for an update in place, where returning also waits for the port to be free again |
| `Launchd.Machine.Replace` | src-tauri/src/lifecycle_service.rs:148-155 | the first closure: success means stopped, seen unloaded, port seen free, the definition written right after that, started right after that, and the baseline accounted for; whatever fails, no definition is written before the port was seen free |
| `Launchd.Machine.Restore` | src-tauri/src/lifecycle_service.rs:161-169 | the second closure: whatever the failed replacement left, success has the old definition back with the same guarantee |
| `Launchd.Machine.Activate` | src-tauri/src/lifecycle_service.rs:109-114 | write, start, wait: needs the label to have been seen unloaded since the last start |
| `Launchd.ArmedMeansSeenUnloaded` | src-tauri/src/lifecycle_service.rs:405-421 | the running flag used by the transaction is equivalent to a past observation of the label as unloaded with no start after it |
| `Launchd.EveryBootstrapFollowsAnUnload` | src-tauri/src/lifecycle_service.rs:439-460 | in the history of a machine no start happens without the label having been observed unloaded after the previous start |
| `Launchd.Machine.ServiceIsLoaded` | src-tauri/src/lifecycle_service.rs:367-388 | an answer "not loaded" is an observation of the unloaded label; the inspection itself changes nothing |
| `Launchd.Machine.Bootout` | src-tauri/src/lifecycle_service.rs:401-403 | accepted or not, the job stays, is leaving or is gone |
| `Launchd.Machine.Bootstrap` | src-tauri/src/lifecycle_service.rs:390-399 | allowed only after the label was seen unloaded; success loads what the definition holds at that moment |
| `Launchd.Machine.WaitForServiceUnload` | src-tauri/src/lifecycle_service.rs:439-460 | success only on an observation of the unloaded label |
| `Launchd.Machine.BootoutIfLoaded` | src-tauri/src/lifecycle_service.rs:405-421 | success only once the label was seen unloaded, even when the bootout itself was refused |
| `Launchd.Machine.WaitForPortRelease` | src-tauri/src/lifecycle_service.rs:462-477 | success only on a refused connection to that port |
| `Launchd.Machine.WaitUntilListening` | src-tauri/src/lifecycle_service.rs:212-233 | success only on a healthy sessionsd answering on the port |
| `Launchd.Machine.WaitUntilReady` | src-tauri/src/lifecycle_service.rs:235-276 | success only on one inventory, from a healthy sessionsd, that accounts for the whole baseline; an error naming sessions names exactly those the latest inventory leaves out |
| `Launchd.Machine.CaptureBaseline` | src-tauri/src/lifecycle_service.rs:198-201 | the baseline is the live part of an inventory listed on the port by a sessionsd that had just answered healthy, with nothing stopped or started before it |
| `Inventory.NothingMissingMeansAccounted` | src-tauri/src/lifecycle_service.rs:278-306 | the computed list of missing sessions is empty exactly when every baseline session is reported reachable or deliberately ended |
| `Inventory.CurrentIsLastWord` | src-tauri/src/lifecycle_service.rs:243-248 | when an id is repeated the last entry decides, and an empty id never does |
| `Inventory.LiveReachableInventoryIsAccounted` | src-tauri/src/lifecycle_service.rs:203-210 | an inventory whose live sessions are reachable accounts for its own baseline |
| `Budget.ScaledTimeoutIsUnboundedFormula` | src-tauri/src/windows_supervisor.rs:52-59 | the overflow-checked computation equals min(cap, base + per * min(n, 2^32-1)) on unbounded numbers |
| `Budget.ScaledTimeoutIsMonotone` | src-tauri/src/lifecycle_service.rs:308-316 | a larger fleet never gets a shorter budget |
| `Lifecycle.Manager.InstallRuntime` | src-tauri/src/lifecycle_install.rs:57-107 | success has the three binaries of the bundled manifest in the directory the definition names; an update and a rollback account for every session the running daemon listed before it was stopped; current changes neither disk nor job; a failed start that reports restored has the earlier definition, or its absence, back; every other refusal leaves the disk untouched |
| `Lifecycle.Manager.UpdateInstalled` | src-tauri/src/lifecycle_install.rs:76-95 | the loaded branch: current, updated or rolled back, with the baseline captured first |
| `Lifecycle.Manager.InstallDefinition` | src-tauri/src/lifecycle_install.rs:67-106 | both branches together, chosen by launchctl's answer |
| `Lifecycle.Manager.InstallFresh` | src-tauri/src/lifecycle_install.rs:96-106 | the unloaded branch: nothing is touched when something answers on the port |
| `Lifecycle.Manager.Reconcile` | src-tauri/src/lifecycle.rs:204-227 | installs for the saved port, or the default when the settings cannot be read; unless rolling back failed, a service in order (launchd runs the definition on disk and its port is the saved one) stays so exactly when the install failed or its port is the saved one |
| `Lifecycle.Manager.InstallUnloadedService` | src-tauri/src/lifecycle_service.rs:76-101 | success means written, loaded and listening; restored means the earlier definition, or its absence, is back |
| `Lifecycle.Manager.TakeBack` | src-tauri/src/lifecycle_service.rs:88-100 | success has the earlier definition, or its absence, back, and at no moment is there anything else than the two |
| `Lifecycle.Manager.RestorePlist` | src-tauri/src/lifecycle_service.rs:479-491 | writes the earlier definition back or removes the file, and leaves nothing in between |
| `Lifecycle.SaveConfiguredPort` | src-tauri/src/lifecycle.rs:738-753 | the preferences file afterwards names the port, or is untouched |
| `Lifecycle.Manager.MoveAndSave` | src-tauri/src/lifecycle.rs:368-384 | a move whose port could not be saved is taken back; every failure leaves the preferences file unchanged |
| `Lifecycle.Manager.ReconfigurePort` | src-tauri/src/lifecycle.rs:329-384 | success: saved port, loaded definition and disk all name the request and every session listed on the old port before anything was stopped is accounted for; failure: the saved port is unchanged; rolled back has the old definition serving the same sessions on the old port; unless the error says that rolling back failed too, a service in order stays so, except after a successful install (for a request that is the presumed port) for another port than the saved one |
| `Lifecycle.Manager.MoveInOrder` | src-tauri/src/lifecycle.rs:346-384 | the same for the move itself |
| `Lifecycle.InOrderOnOnePort` | src-tauri/src/lifecycle.rs:204-227 | a service that runs the definition on disk is in order exactly when that definition's port is the saved one |
| `Lifecycle.AgreementNamesOnePort` | src-tauri/src/lifecycle.rs:348-384 | a loaded definition determines its port, so agreement cannot hold for two |
| `Lifecycle.AnotherPortIsAnotherDefinition` | src-tauri/src/lifecycle_install.rs:61-76 | a changed port is a changed definition whatever the runtime directory |
| `MutationLock.MutationsRunOneAtATime` | src-tauri/src/lifecycle.rs:34-53 | every interleaving of calls, panics included, has the history of a serial run in the order the lock was taken, and a refused call has done nothing |
| `MutationLock.RefusedExactlyByAHolder` | src-tauri/src/lifecycle.rs:40-53 | a call is refused exactly while another holds the lock; a poisoned lock refuses nobody |
| `MutationLock.WhatEachKeepsAllKeep` | src-tauri/src/lifecycle.rs:34-53 | whatever every call keeps when left alone holds, in every interleaving, whenever no call is at work |
| `MutationLock.ServiceStaysInOrder` | src-tauri/src/lifecycle.rs:40-53 | for the service: overlapping reconciliations and port changes leave it in order whenever none is at work, so long as none panics, reports a failed rollback or installs for another port than the saved one, which takes settings it could not read |
| `MutationLock.UnreadSettingsEndTheOrder` | src-tauri/src/lifecycle.rs:314-325 | from every service in order, one call alone that installs for a port other than the saved one ends the order |
| `MutationLock.MoveKeepsInv` | src-tauri/src/lifecycle.rs:40-53 | each step of any call keeps the history serial |
| `AtomicFile.Disk.WriteAtomic` | src-tauri/src/lifecycle_util.rs:3-38 | at every moment the target is wholly old or wholly new; success is new with its bytes synced, failure is old |
| `AtomicFile.CrashLeavesOldOrNew` | src-tauri/src/lifecycle_util.rs:16-31 | a crash during or after the write may fall back to any state since it began and scramble unsynced files: a synced target has its old or its new text |
| `AtomicFile.SuffixesDiffer` | src-tauri/src/lifecycle_util.rs:56-66 | two suffixes of one process differ whatever the clock does |
| `AtomicFile.TemporariesDiffer` | src-tauri/src/lifecycle_util.rs:12-16 | different suffixes give different temporary files |
| `AtomicFile.TemporaryIsNotTarget` | src-tauri/src/lifecycle_util.rs:12-16 | a temporary file is never the file it will replace |
| `Plist.EscapeIsOnePass` | src-tauri/src/lifecycle_util.rs:68-73 | three replacement passes in their order are one character map |
| `Plist.EscapeIsReversibleAndMarkupFree` | src-tauri/src/lifecycle_util.rs:68-73 | escaped text can be read back and holds neither < nor > (section 2.4 of XML 1.0) |
| `Plist.RenderIsInjective` | src-tauri/src/lifecycle_service.rs:1-74 | any frame with these delimiters determines label, arguments, environment, directory and log path |
| `Plist.DaemonPlistIsInjective` | src-tauri/src/lifecycle_service.rs:1-74 | two definitions are byte-equal exactly when they are the same definition, so a byte comparison compares the definitions |
| `RuntimeStaging.ManagedRoot.StageRuntime` | src-tauri/src/lifecycle_install.rs:259-346 | on the way only the staging directory, whose name holds version, process and a suffix made of clock and counter, differs from before, and the counter advances whenever anything was created; the version appears with the last step or not at all; success means it holds the three manifest-matching binaries |
| `RuntimeStaging.ManagedRoot.AnyRun` | src-tauri/src/lifecycle_install.rs:259-346 | over any sequence of stagings and crashes with restarts: in every state a crash could expose, each directory under a name that is not the staging name of some version is complete for the manifest it was staged for, and no binary of a version is ever rewritten |
| `RuntimeStaging.ManagedRoot.StageAndRecord` | src-tauri/src/lifecycle_install.rs:259-346 | one staging keeps that ledger |
| `RuntimeStaging.ManagedRoot.CrashAndRestart` | src-tauri/src/lifecycle_install.rs:305-336 | so does a crash, which may fall back to any earlier state since the start and scramble unsynced files |
| `RuntimeStaging.StagingKeepsLedger` | src-tauri/src/lifecycle_install.rs:292-340 | every intermediate state of a staging keeps the ledger |
| `RuntimeStaging.CrashKeepsLedger` | src-tauri/src/lifecycle_install.rs:305-336 | a state that survives a crash keeps the ledger, and with it the binaries of every version |
| `RuntimeStaging.VersionsMayLookLikeStaging` | src-tauri/src/lifecycle_install.rs:361-366 | the boundary: for every version and suffix whose staging name is itself short enough to be a version, a staging that stops early and a crash leave a directory that does not match the valid manifest of that name |
| `RuntimeStaging.CrashMayLoseTheManifest` | src-tauri/src/lifecycle_install.rs:321-326 | a crash can take the unsynced manifest of a complete version |
| `RuntimeStaging.ManagedRoot.StageNew` | src-tauri/src/lifecycle_install.rs:292-336 | a new version appears only filled, synced and verified, under its final name at once; a taken staging name is refused |
| `RuntimeStaging.ManagedRoot.Fill` | src-tauri/src/lifecycle_install.rs:305-327 | success means all binaries are synced and match the manifest, whatever copying stored |
| `RuntimeStaging.ManagedRoot.CopyBinary` | src-tauri/src/lifecycle_install.rs:306-320 | a copy touches only its own file and success has synced it |
| `RuntimeStaging.ManifestNamesExactlyTheBinaries` | src-tauri/src/lifecycle_install.rs:348-392 | a valid manifest names the three binaries and nothing else |
| `RuntimeStaging.ManagedRoot.VerifyDirectory` | src-tauri/src/lifecycle_install.rs:399-414 | success means every required binary matches its digest |
| `CliLink.FileSystem.InstallCliLink` | src-tauri/src/lifecycle_install.rs:116-195 | without an I/O error, success repoints every link of ours, or, where there is none, makes exactly one at a free candidate; files and foreign links are never touched |
| `CliLink.FileSystem.Classify` | src-tauri/src/lifecycle_install.rs:121-166 | candidates reported as ours or free are so, and without an I/O error none of ours is missed |
| `CliLink.FileSystem.ReplaceCliLink` | src-tauri/src/lifecycle_install.rs:197-216 | the candidate is the new link or as it was; nothing else changes |
| `CliLink.FileSystem.RepointAll` | src-tauri/src/lifecycle_install.rs:168-182 | success has repointed every link given; a failure leaves each one old or repointed |
| `CliLink.FileSystem.RemoveIntegration` | src-tauri/src/lifecycle.rs:546-584 | a complete removal takes away exactly the definition and the managed links; an incomplete one nothing else |
| `CliLink.UninstallingIsIdempotent` | src-tauri/src/lifecycle.rs:546-584 | a second removal changes nothing |
| `CliLink.UninstallUndoesInstall` | src-tauri/src/lifecycle.rs:546-621 | uninstalling after a successful install leaves no link the installer owned or made, and everything else as it was before |
| `CliLink.RemovalLeavesBundledLinks` | src-tauri/src/lifecycle.rs:586-621 | a link the installer owns stays exactly when it does not lead into the managed runtime |
| `CliLink.BundledLinkSurvivesRemoval` | src-tauri/src/lifecycle.rs:586-621 | one such link |
| `Supervisor.ParseAcceptsExactlyPrintedForms` | src-tauri/src/windows_supervisor.rs:120-149 | the parser accepts exactly the printed forms of definitions with non-empty quote-free paths and an unprivileged port, up to the spelling of the port |
| `Supervisor.RoundTrip` | src-tauri/src/windows_supervisor.rs:111-149 | parsing undoes printing on exactly those definitions |
| `Supervisor.PrintingNormalises` | src-tauri/src/windows_supervisor.rs:111-149 | printing what was parsed parses to the same definition |
| `Supervisor.CommandLineInjective` | src-tauri/src/windows_supervisor.rs:111-118 | one command line, one definition |
| `Supervisor.FormParses` | src-tauri/src/windows_supervisor.rs:120-149 | every spelling of the port in a printed form parses |
| `Supervisor.ParseU16Exactly` | src-tauri/src/windows_supervisor.rs:137-139 | the accepted spellings of a port are an optional plus and digits of a value that fits |
| `Supervisor.AccumulateChecksTheWholeValue` | src-tauri/src/windows_supervisor.rs:137-139 | digit-by-digit overflow checks accept exactly the strings whose whole value fits |
| `Supervisor.AcceptedPairsComeFromOneRuntime` | src-tauri/src/windows_supervisor.rs:71-93 | a versioned daemon and runner are accepted exactly when they come from one runtime directory and both are there |
| `Supervisor.PinnedRunnerIsAccepted` | src-tauri/src/windows_supervisor.rs:71-93 | a versioned daemon with the pinned runner is accepted exactly when both files are there |
| `CliPath.UnmanagedEntries` | src-tauri/src/windows_cli_path.rs:26-44 | the loop returns the specified entries |
| `CliPath.KeptIsTheUnmanagedSubsequence` | src-tauri/src/windows_cli_path.rs:26-44 | every component that is not managed is kept byte for byte in its order, and nothing else |
| `CliPath.EntriesOfMerge` | src-tauri/src/windows_cli_path.rs:3-18 | installing leaves the foreign components as they were |
| `CliPath.EntriesOfRemove` | src-tauri/src/windows_cli_path.rs:20-24 | so does uninstalling |
| `CliPath.MergeIsIdempotent` | src-tauri/src/windows_cli_path.rs:3-18 | installing twice is installing once |
| `CliPath.RemoveUndoesMerge` | src-tauri/src/windows_cli_path.rs:3-24 | uninstalling after installing is uninstalling |
| `CliPath.RemoveIsIdempotent` | src-tauri/src/windows_cli_path.rs:20-24 | uninstalling twice is uninstalling once |
| `CliPath.RemoveLeavesAnUntouchedPathAlone` | src-tauri/src/windows_cli_path.rs:20-24 | uninstalling changes nothing exactly when no component is managed |
| `CliPath.MergeAfterRemove` | src-tauri/src/windows_cli_path.rs:3-24 | installing after uninstalling is installing, exactly unless the PATH is not empty and all its components but one empty one are managed |
| `CliPath.TrailingSeparatorIsLost` | src-tauri/src/windows_cli_path.rs:3-24 | an input that reaches the exception |
| `CliPath.KeyOfChild` | src-tauri/src/windows_cli_path.rs:67-74 | the comparison key of a versioned directory extends the key of its root by one component |
| `CliPath.StagedRuntimeIsManaged` | src-tauri/src/windows_cli_path.rs:26-44 | every versioned directory under the root counts as managed |
| `WindowsRunner.RunnerRoot.AnyRun` | src-tauri/src/windows_runner.rs:57-182 | over any sequence of activations and sweeps, with runners starting and exiting and other processes at work in between, whoever runs stays linked under the pinned or a retired name and keeps the bytes it started with |
| `WindowsRunner.RunnerRoot.ActivateStableRunner` | src-tauri/src/windows_runner.rs:57-137 | success: the pinned bytes match; failure: the previous runner is still pinned or the verified new one is, and after a failed restore the previous bytes are under a retired name |
| `WindowsRunner.RunnerRoot.Swap` | src-tauri/src/windows_runner.rs:90-137 | rename aside and in: each outcome says which file is where |
| `WindowsRunner.RunnerRoot.RenameIn` | src-tauri/src/windows_runner.rs:108-129 | a failed rename in puts the retired runner back or says it could not |
| `WindowsRunner.RunnerRoot.UndoSwap` | src-tauri/src/windows_runner.rs:108-128 | restored means the retired file is pinned again, otherwise it is still retired |
| `WindowsRunner.RunnerRoot.Stage` | src-tauri/src/windows_runner.rs:73-88 | a staged file that is accepted matches the digest, and staging never touches the pinned one |
| `WindowsRunner.RunnerRoot.SweepRetiredRunners` | src-tauri/src/windows_runner.rs:144-182 | collects only retired and staged files, never one being executed, and counts what it removed |
| `WindowsRunner.RunnerRoot.Rename` | src-tauri/src/windows_runner.rs:90-108 | a replaced file is never one being executed, and whoever runs stays linked |
| `WindowsRunner.RunnerRoot.RemoveFile` | src-tauri/src/windows_runner.rs:176-179 | a file being executed is not removed |
| `WindowsRuntime.Host.HandoffSettled` | src-tauri/src/windows_runtime.rs:645-696 | whenever anything was asked to stop, the baseline is what the daemon on the current port had listed before; handed off: the new value is registered, its supervisor started after the old one stopped and the port was seen free, and one inventory lists the whole baseline; restored: the same for the entry value, its parsed supervisor and the old version; refused: nothing changed; not stopped: nothing was written and a stop request is the last event; a refused stop always ends it so, and a new supervisor that comes up always completes it |
| `WindowsRuntime.Host.TakeOver` | src-tauri/src/windows_runtime.rs:667-695 | the same for its stop, replace and bring-back steps |
| `WindowsRuntime.Host.BringBack` | src-tauri/src/windows_runtime.rs:678-685 | success has the entry value and its supervisor back with every baseline session listed |
| `WindowsRuntime.Host.RegisterAndStart` | src-tauri/src/windows_runtime.rs:670-672 | register, start and wait in order, writing at most that one value |
| `WindowsRuntime.Host.HandoffIfSettled` | src-tauri/src/windows_runtime.rs:622-643 | a daemon that is still discovering runners is never handed over; otherwise the same |
| `WindowsRuntime.Host.WaitForReady` | src-tauri/src/windows_runtime.rs:788-831 | success only on a matching version and one inventory that contains the whole baseline |
| `WindowsRuntime.Host.WaitForListening` | src-tauri/src/windows_runtime.rs:757-778 | success only on an answer of a matching version |
| `WindowsRuntime.Host.Install` | src-tauri/src/windows_runtime.rs:75-186 | the registered value is the entry value or the new command line at every moment, the new one written only over a usable runner; a replaced daemon had listed the baseline and answered with the old version before it was stopped, and success or a restore lists all of it again; success has the verified runner pinned; what a failed final activation leaves pinned is stated, and any earlier failure leaves a usable pinned runner as it was; an error before the handoff leaves the registered value, the running daemon and every process alone, and a start reported restored has the entry value back |
| `WindowsRuntime.Host.Register` | src-tauri/src/windows_runtime.rs:126-177 | the three cases of an install: matching daemon, handoff with its captured baseline and old version, cold start; every other error, a refused handoff included, changes nothing |
| `WindowsRuntime.Host.Refresh` | src-tauri/src/windows_runtime.rs:127-131 | a matching daemon: the definition is written, whatever port the entry value names, once the daemon listens; otherwise nothing changes |
| `WindowsRuntime.Host.Replace` | src-tauri/src/windows_runtime.rs:132-149 | another version: handed over with its sessions, or refused without a definition to return to |
| `WindowsRuntime.Host.StartUnlessOther` | src-tauri/src/windows_runtime.rs:150-176 | no daemon: started, unless another definition is registered |
| `WindowsRuntime.Host.ColdStart` | src-tauri/src/windows_runtime.rs:150-176 | a daemon that does not start has the entry value put back, or the error says otherwise |
| `WindowsRuntime.Host.EnsureRunner` | src-tauri/src/windows_runtime.rs:110-117 | afterwards something usable is pinned, and a usable runner was left alone |
| `WindowsRuntime.Host.Prepare` | src-tauri/src/windows_runtime.rs:89-117 | preparing registers nothing and keeps a usable pinned runner |
| `WindowsRuntime.Host.MovePort` | src-tauri/src/windows_runtime.rs:238-333 | success: the new port is registered and lists every session the daemon on the old port had listed before it was stopped; restored: the entry value is back with all of them listed by the old version on the old port; any refusal before the handoff changes neither value nor supervisor; a move whose every other step works can fail only in its last one, activating the runner |
| `WindowsRuntime.Host.MoveElsewhere` | src-tauri/src/windows_runtime.rs:247-333 | the same for a port that differs |
| `WindowsRuntime.Host.MoveRunning` | src-tauri/src/windows_runtime.rs:292-318 | handoff, then the pinned runner follows; a failed activation leaves the new port registered with the baseline listed; a refused stop that left nothing running is reported as not stopped |
| `WindowsRuntime.Host.PrepareMove` | src-tauri/src/windows_runtime.rs:247-291 | everything a move needs is there before anything is stopped, a failure has changed nothing, and it succeeds whenever everything is there |
| `WindowsRuntime.Host.HandoffForMove` | src-tauri/src/windows_runtime.rs:292-312 | a requested move is refused while runners are being discovered; taking one back is not; the baseline is captured first either way |
| `WindowsPort.Owner.ReconfigurePort` | src-tauri/src/lifecycle.rs:385-412 | success: registered and saved port are the request and every session listed on the current port before anything was stopped is listed on it; failure: the saved port is unchanged; for every outcome it is said whether ports that agreed still do: after an install exactly when the request is the saved port or the registered value was left alone, after a failed last activation never, after a failed way back exactly when only its activation failed, and otherwise always, with half-failed rollbacks alone left open |
| `WindowsPort.Owner.Reinstall` | src-tauri/src/lifecycle.rs:390-393 | a request for the presumed port: the entry value or this port is registered, and with a matching daemon always this port |
| `WindowsPort.Owner.UnreadableSettingsSplitThePorts` | src-tauri/src/lifecycle.rs:314-325 | from any agreeing installation on another port than 8787, a request for 8787 with unreadable settings and a matching daemon there ends with 8787 registered and the other port saved |
| `WindowsPort.Owner.FailedActivationSplitsThePorts` | src-tauri/src/windows_runtime.rs:314-318 | from any agreeing installation, a move to any other port whose new runner cannot be created ends with that port registered and the old one saved |
| `WindowsPort.Owner.RefusedStopMayLeaveNoDaemon` | src-tauri/src/windows_runtime.rs:667-669 | a refused stop can leave no daemon running while the registered value stays and nothing is brought back |
| `WindowsPort.Owner.MoveAndSave` | src-tauri/src/lifecycle.rs:391-412 | a move whose port could not be saved is taken back: the sessions live at first were all listed on the requested port, and those live before the way back are all listed on the old port again; a failure says which definition is registered |
| `WindowsPort.Owner.MoveBack` | src-tauri/src/lifecycle.rs:394-412 | the way back is not refused because discovery is still running: when its other steps work the old port is registered again |
| `WindowsPort.Owner.MoveHost` | src-tauri/src/windows_runtime.rs:206-229 | a moved host had the old port registered before, has exactly the requested one registered now, and lists there the sessions captured before the stop |
| `WindowsPort.RegisteredPort` | src-tauri/src/windows_runtime.rs:540-546 | a definition the installer registers is read back with its port |
| `Credentials.ValidateCredentials` | src-tauri/src/windows_credentials.rs:68-95 | accepts exactly the valid sets, unchanged, and otherwise names the first fault |
| `Credentials.EncodeHexLoop` | src-tauri/src/windows_credentials.rs:97-105 | the loop computes the specified text |
| `Credentials.DecodeUndoesEncode` | src-tauri/src/windows_credentials.rs:97-132 | decoding undoes encoding on every byte string but the empty one, which is refused |
| `Credentials.EncodeOfDecodeIsLowerCase` | src-tauri/src/windows_credentials.rs:97-132 | exactly non-empty hexadecimal texts of even length decode, and encoding the result lower-cases the text (section 8 of RFC 4648) |
| `Credentials.VaultRoundTrip` | src-tauri/src/windows_credentials.rs:134-186 | whatever was protected opens again in order; with a protection that never fails a vault exists for exactly the valid sets |
| `Credentials.UnprotectVault` | src-tauri/src/windows_credentials.rs:158-186 | opens exactly the vaults of the right version and size whose entries all open to a valid set |
| `Credentials.ProtectThenUnprotect` | src-tauri/src/windows_credentials.rs:134-186 | protecting and opening returns the set, for exactly the valid sets |
| `KeychainVault.Backend.SaveStore` | src-tauri/src/apple_credentials.rs:62-83 | which reads and writes happened, with which bytes and answers, for every outcome |
| `KeychainVault.SaveStoreIsCautious` | src-tauri/src/apple_credentials.rs:62-83 | for every backend: nothing is written unless the existing vault decoded, at most two writes, saved and restored only on a last read of the requested and the previous set |
| `KeychainVault.ReportsMatchTheStore` | src-tauri/src/apple_credentials.rs:62-83 | with truthful reads the report is about the store: saved and restored name what it holds, a refusal left it untouched |
| `KeychainVault.FaithfulSavesHold` | src-tauri/src/apple_credentials.rs:62-83 | a store that keeps what it is given never needs a restore |
| `KeychainVault.FailedVerificationIsTakenBack` | src-tauri/src/apple_credentials.rs:62-83 | neither size refusal is ever reported, and a save that could not be verified always writes the previous set back |
| `KeychainVault.ValidSetsEncode` | src-tauri/src/apple_credentials.rs:32-43 | every valid set encodes within the size limit |
| `VaultJson.ValidSetsAreShort` | src-tauri/src/apple_credentials.rs:32-43 | a hundred credentials at their limits with every byte escaped take at most 130 729 bytes of compact JSON |
| `KeychainVault.SaidSetsAreValid` | src-tauri/src/apple_credentials.rs:50-60 | what a read reports is a valid set, an absent vault the empty one, and a failed read nothing |
| `KeychainVault.Backend.TakeBack` | src-tauri/src/apple_credentials.rs:72-81 | what happened after a failed verification, with which bytes and answers |
| `KeychainVault.DecodeUndoesEncode` | src-tauri/src/apple_credentials.rs:17-43 | every encoded set decodes to itself |
| `PipeRunner.NoDeadlock` | src-tauri/src/native_connections.rs:856-946 | for every script, pipe capacity of at least one and interleaving: no run makes more moves than its initial work, and a run stops exactly when the answer is delivered |
| `PipeRunner.CapturedOutputIsExact` | src-tauri/src/native_connections.rs:856-956 | a child that ended by itself is captured exactly up to the cap, any other as a prefix; a finished answer had its whole input written |
| `PipeRunner.SomeMoveIsEnabled` | src-tauri/src/native_connections.rs:856-946 | until the answer is delivered somebody can move |
| `PipeRunner.EveryMoveUsesWork` | src-tauri/src/native_external.rs:78-90 | every move, waiting polls included, uses up work |
| `PipeRunner.MoveKeepsInv` | src-tauri/src/native_connections.rs:948-956 | what was captured, what is in a pipe and what is still to be written always add up to all the child writes |
| `WindowLabels.LabelsTellSessionsApart` | src-tauri/src/native_windows.rs:143-163 | two windows share a label exactly when they show the same session of the same machine |
| `PairingLink.ParseApplicationPairingLink` | src-tauri/src/native_connections.rs:525-543 | a link is read exactly when every field is a valid endpoint or the one valid ticket and both kinds are there |
| `PairingLink.EndpointsAreFirstMentions` | src-tauri/src/native_connections.rs:525-534 | each endpoint is listed once, in the order of first mention |
| `PairingLink.Client.ClaimNativePairingLink` | src-tauri/src/native_connections.rs:620-631 | endpoints are asked in order until the first accepts |
| `PairingLink.Client.ClaimPairingEndpoint` | src-tauri/src/native_connections.rs:642-696 | one probe, and one claim only after it identified a daemon |
| `PairingLink.TicketFollowsIdentification` | src-tauri/src/native_connections.rs:642-676 | the one-time ticket goes to an endpoint only right after that endpoint identified itself |
| `PairingLink.NoEndpointGetsTheTicketTwice` | src-tauri/src/native_connections.rs:620-631 | no endpoint of a link is offered its ticket twice |
| `PairingLink.ReadLinksOfferTheTicketOnce` | src-tauri/src/native_connections.rs:514-631 | so for every link that was read, because the endpoints it lists are distinct |
| `PairingLink.ReadAndClaim` | src-tauri/src/native_connections.rs:620-631 | reading a link and claiming it: every request goes to an endpoint the link names, every claim carries its ticket and directly follows that endpoint's identification, no endpoint gets two; the result is an endpoint exactly when the last request is an accepted claim there, and none only after all were asked |
| `GeometryStore.NoUpdateIsLost` | src-tauri/src/native_windows.rs:82-112 | in every reachable state an update no snapshot has seen has a thread that will take one, and the file is one whole value memory has held |
| `GeometryStore.QuiescentFileIsNewest` | src-tauri/src/native_windows.rs:27-54 | when all is quiet and no write failed, the file holds the newest version exactly when the last rename was not overtaken |
| `GeometryStore.OrderedRenamesSaveMemory` | src-tauri/src/native_windows.rs:27-54 | renames in snapshot order leave the file equal to memory |
| `GeometryStore.DelayedRenameLosesTheNewerValue` | src-tauri/src/native_windows.rs:27-54 | a run in which a delayed rename loses the newer value |
| `GeometryStore.MoveKeepsInv` | src-tauri/src/native_windows.rs:82-112 | every atomic action of every thread keeps the invariant |
| `FleetUpdates.EveryTargetHasOnePlace` | frontend/src/components/FleetProviderUpdates.tsx:24-39 | each computer is queued, in flight or settled and only one of them, at most two are in flight, and the updater is called once per paired computer taken and never for another |
| `FleetUpdates.OutcomesStay` | frontend/src/components/FleetProviderUpdates.tsx:21-23 | no published outcome is lost or overwritten until a new job starts |
| `FleetUpdates.FinishedJobHasOnlyOutcomes` | frontend/src/components/FleetProviderUpdates.tsx:24-40 | once the job is over every row shows updated, unknown or skipped, and skipped exactly for the unpaired |
| `FleetUpdates.AJobEnds` | frontend/src/components/FleetProviderUpdates.tsx:25-40 | while busy some step is possible and each brings the job nearer to its end |
| `FleetUpdates.MoveKeepsInv` | frontend/src/components/FleetProviderUpdates.tsx:17-41 | every stretch of either worker keeps queue, calls, outcomes and rows consistent |
| `ManagerTabs.IsUnderManager` | frontend/src/App.tsx:726-737 | the walk ends on every parent graph, cycles and missing sessions included, and says yes exactly for the manager and sessions with the manager above them |
| `ManagerTabs.ActiveManagerTabs` | frontend/src/App.tsx:724-738 | the tabs are the open sessions under the manager, in order |
| `ManagerTabs.NotUnder` | frontend/src/App.tsx:729-736 | a walk that met no manager and only seen parents can never meet it |
| `LengthGate.Gate` | runtime/scripts/check-function-length.go:51-82 | with reporting off it passes exactly when nothing complains and no exception is stale; it prints exactly the offending functions, or all when reporting |
| `LengthGate.GatePassesExactly` | runtime/scripts/check-function-length.go:51-82 | over any Go files in any order it passes exactly when the exceptions are the functions over the limit and each keeps its recorded length |
| `LengthGate.RaisingTheLimitOnlyDropsExceptions` | runtime/scripts/check-function-length.go:51-82 | a higher limit passes with the exceptions that are still needed |
| `LengthGate.DisambiguateNames` | runtime/scripts/check-function-length.go:208-222 | the two loops compute the specified names in place |
| `LengthGate.NamesBecomeDistinct` | runtime/scripts/check-function-length.go:208-222 | the names of one file become pairwise distinct, because Go names hold no number sign |
| `LengthGate.KeysIdentifyFunctions` | runtime/scripts/check-function-length.go:54-54 | over all files a key names one function |
| `LengthGate.KeyTellsPathAndName` | runtime/scripts/check-function-length.go:54-54 | a key determines its path and its name |
| `LengthGate.ReadExceptions` | runtime/scripts/check-function-length.go:85-125 | the list is read exactly when no line is at fault, records exactly its entries, and otherwise the first fault is reported |

## Left out

- Budget: only the arithmetic of a budget; deadlines elsewhere are freely chosen poll budgets, so nothing here bounds time.
- Launchd.Machine.Bootstrap: launchd is assumed to load what the definition holds when it reports success; a reported failure may have loaded it too.
- Launchd.Machine.MigrateLoadedService: file modes and the creation of directories are one step that may fail.
- AtomicFile.Disk.WriteAtomic: directories are never synced, so a rename may be undone by a crash after success was reported; old-or-new survives that, permanence of the new text is not claimed.
- Lifecycle.Manager.InstallRuntime: that the definition on disk equals the loaded one in the `Current` case is not claimed; the code compares only the file.
- WindowsRunner.RunnerRoot.ActivateStableRunner: what a failure leaves at the pinned path is claimed only while no other Sessions process changes the directory (`alone`); that live runners keep their bytes is claimed always.
- WindowsRuntime.Host.Install: other Sessions processes are assumed away for what a failure leaves pinned; staging, owner policy and PATH integration are steps that may fail.
- WindowsPort.Owner.ReconfigurePort: nothing is claimed about the registered port where a rollback failed half way, beyond being one of two; paths and versions are assumed to hold no quotation mark, which Windows paths cannot; both moves use one manifest version.
- WindowsRuntime.Host.EnsureRunner: a runner that is there and not empty counts as usable whatever its bytes, as in the code.
- Supervisor.AcceptedPairsComeFromOneRuntime: Windows path components are split at `\` only and compared exactly; drive prefixes, `.` components and `/` separators are not modelled.
- CliPath.StagedRuntimeIsManaged: lower-casing covers ASCII letters, as in the code.
- RuntimeStaging.ManagedRoot.AnyRun: the root starts empty, only this code changes it, and versions are plain names; the manifest check admits `.` and `..`, which are not.
- MutationLock.ServiceStaysInOrder: what each call keeps when alone is a hypothesis here; `Lifecycle.Manager.Reconcile` and `ReconfigurePort` prove it of the two transactions. A call that panics half way is excluded, and so is one that installs for another port than the saved one because it could not read the settings: it ends the order (`OrderAfter`).
- RuntimeStaging.ManagedRoot.StageRuntime: executable bits, signatures and directory modes are part of one verification that may fail; removing a failed staging directory may leave it behind. The Windows variant is not modelled: it differs in its manifest targets and copies without any sync (src-tauri/src/windows_runtime.rs:439-447), so what is proved about crashes does not hold for it.
- CliLink.FileSystem.InstallCliLink: leftovers under temporary names are not tracked; paths are component sequences without `..`.
- PipeRunner.NoDeadlock: no time bound for a child that never reads, because the budget starts after the whole input is written; grandchildren that keep pipe ends open are excluded; scripts are finite.
- GeometryStore.QuiescentFileIsNewest: loading, JSON and temporary-file cleanup are left out; a failed write is recorded, not repaired.
- FleetUpdates.EveryTargetHasOnePlace: machine identifiers are assumed distinct, and a call that never settles keeps the job busy.
- KeychainVault.FailedVerificationIsTakenBack: UTF-8 is assumed to use bytes below 0x20 for the ASCII control characters only, and the JSON writer to be compact.
- KeychainVault.SaveStoreIsCautious: nothing is claimed about the store itself unless its reads tell the truth (`ReportsMatchTheStore`).
- PairingLink.ParseApplicationPairingLink: URL parsing and the endpoint and ticket validators are parameters; the web form of a link and the checks on the URL around the query pairs are not modelled.
- LengthGate.Gate: the order of the printed lines follows the order of its input; sorting, finding files and parsing Go are not modelled.
- LengthGate.ReadExceptions: reading the file and splitting its lines into fields are given.
- `version_is_newer`, the recency list and open-tab updaters of `frontend/src/App.tsx`, status messages, menus, accounts and Homebrew or npm metadata: these would only add easy members.
- The daemon itself, process creation, access-control lists and network calls are not part of this model beyond the answers they may give.
