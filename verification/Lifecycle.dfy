/** lifecycle_install.rs `install_runtime` and lifecycle.rs `reconfigure_port`:
    installing, updating and moving the service, with the saved port beside it. */
module Lifecycle {
  import opened Wrappers
  import opened Text
  import opened AtomicFile
  import opened Inventory
  import opened Launchd
  import opened Plist
  import opened RuntimeStaging

  const DEFAULT_LOOPBACK_PORT: nat := 8787

  datatype StartOutcome = Started | NotStarted | Restored | NotRestored

  datatype InstallOutcome = Current | Updated(preserved: nat) | Installed

  datatype InstallError =
    | Unprepared                        // configuration, staging, reading or inspecting failed
    | NoRollbackDefinition              // loaded, but no definition to return to
    | BaselineUnknown
    | NotListening
    | ForeignService                    // something else answers on the port
    | UpdateFailed(outcome: UpdateOutcome)
    | StartFailed(start: StartOutcome)

  datatype PortOutcome =
    | Moved(preserved: nat)
    | Reinstalled(installed: Result<InstallOutcome, InstallError>)
    | Refused
    | MoveFailed(outcome: UpdateOutcome)
    | SaveRolledBack
    | SaveRollbackFailed

  // The errors that say rolling back failed as well.
  predicate DoubleFailure(r: PortOutcome) {
    r == MoveFailed(RollbackFailed) || r.SaveRollbackFailed? || r == Reinstalled(Err(UpdateFailed(RollbackFailed)))
  }

  // serde_json::to_vec_pretty of the saved preferences.
  function PreferencesText(port: nat): string { "{\n  \"port\": " + Decimal(port) + "\n}" }

  // None: not a preferences document. Some(None): a document without a port.
  type Parser = string -> Option<Option<nat>>

  ghost predicate ReadsBack(parse: Parser) {
    forall port: nat :: 1024 <= port <= U16_MAX ==> parse(PreferencesText(port)) == Some(Some(port))
  }

  // configured_port, for a file that can be read; an unreadable one is an error too.
  function ConfiguredPort(files: Files, preferences: Path, parse: Parser): Option<nat> {
    if preferences !in files then Some(DEFAULT_LOOPBACK_PORT) else
    match parse(files[preferences].text)
    case None => None
    case Some(None) => Some(DEFAULT_LOOPBACK_PORT)
    case Some(Some(port)) => if 1024 <= port <= U16_MAX then Some(port) else None
  }

  function ResolvedPort(configured: Option<nat>): nat {
    match configured
    case Some(port) => port
    case None => DEFAULT_LOOPBACK_PORT
  }

  // How a configuration and a runtime directory are written down; the service uses DaemonPlist.
  type Printer = (Config, string) -> string

  // What launchd runs is a Sessions definition whose port is the saved one.
  ghost predicate Agreement(job: Job, savedPort: nat, printer: Printer) {
    exists c: Config, dir: string :: job == Loaded(printer(c, dir)) && c.port == savedPort
  }

  // What every mutation works on: the definition on disk, what launchd runs, and the saved port.
  datatype Service = Service(definition: Option<string>, job: Job, savedPort: nat)

  // launchd runs the definition on disk, and its port is the saved one.
  ghost predicate InOrder(s: Service, printer: Printer) {
    s.definition.Some? && s.job == Loaded(s.definition.value) && Agreement(s.job, s.savedPort, printer)
  }

  // What a call that reports no failed rollback makes of a service in order: it stays so, unless the call ended with
  // an install for another port than the saved one, which the code chooses when it cannot read the settings.
  ghost predicate OrderAfter(before: Service, after: Service, port: nat, installed: bool, printer: Printer) {
    InOrder(before, printer) ==> (InOrder(after, printer) <==> !installed || port == before.savedPort)
  }

  // No loaded definition agrees with two ports.
  ghost predicate NamesOnePort(printer: Printer) {
    forall job: Job, savedPort: nat, c: Config, dir: string ::
      Agreement(job, savedPort, printer) && job == Loaded(printer(c, dir)) ==> c.port == savedPort
  }

  lemma InOrderOnOnePort(s: Service, c: Config, dir: string, printer: Printer)
    requires NamesOnePort(printer) && s.definition == Some(printer(c, dir)) && s.job == Loaded(printer(c, dir))
    ensures InOrder(s, printer) <==> c.port == s.savedPort
  {
    if c.port == s.savedPort { assert Agreement(s.job, s.savedPort, printer); }
  }

  // A loaded definition determines its port, so agreement is with one port only.
  lemma AgreementNamesOnePort(job: Job, savedPort: nat, c: Config, dir: string)
    requires Agreement(job, savedPort, DaemonPlist) && job == Loaded(DaemonPlist(c, dir))
    ensures c.port == savedPort
  {
    var c', dir' :| job == Loaded(DaemonPlist(c', dir')) && c'.port == savedPort;
    DaemonPlistIsInjective(c, dir, c', dir');
  }

  lemma DaemonPlistNamesOnePort()
    ensures NamesOnePort(DaemonPlist)
  {
    forall job: Job, savedPort: nat, c: Config, dir: string |
      Agreement(job, savedPort, DaemonPlist) && job == Loaded(DaemonPlist(c, dir)) ensures c.port == savedPort
    {
      AgreementNamesOnePort(job, savedPort, c, dir);
    }
  }

  // A changed port is a changed definition: a move never mistakes the old service for the new one.
  lemma AnotherPortIsAnotherDefinition(c: Config, dirA: string, dirB: string, port: nat)
    requires port != c.port
    ensures DaemonPlist(c, dirA) != DaemonPlist(c.(port := port), dirB)
  {
    DaemonPlistIsInjective(c, dirA, c.(port := port), dirB);
  }

  // The saved port afterwards is the new one, or the file is untouched.
  method SaveConfiguredPort(disk: Disk, preferences: Path, port: nat) returns (ok: bool)
    requires disk.Valid()
    modifies disk
    ensures disk.Valid() && old(disk.crashes) <= disk.crashes
    ensures ok ==> disk.files == old(disk.files)[preferences := File(PreferencesText(port), true)]
    ensures !ok ==> Same(old(disk.files), disk.files, preferences)
    ensures Confined(old(disk.files), disk.files, preferences, {PreferencesText(port)})
  {
    var prepared: bool := *;
    if !prepared { return false; }
    ghost var before := disk.files;
    ghost var temporary;
    ok, temporary := disk.WriteAtomic(preferences, PreferencesText(port));
    WriteIsConfined(before, disk.files, preferences, PreferencesText(port), temporary, {PreferencesText(port)});
    if !ok {
      assert preferences in disk.files - {temporary} <==> preferences in before - {temporary};
      if preferences in before { assert (disk.files - {temporary})[preferences] == (before - {temporary})[preferences]; }
    }
  }

  class Manager {
    const machine: Machine
    const runtimes: ManagedRoot
    const managedRoot: string
    const preferences: Path
    const parse: Parser
    const define: Printer

    ghost predicate Valid()
      reads this, machine, machine.disk, runtimes
    {
      && machine.Valid() && runtimes.Valid()
      && preferences.directory != machine.plist.directory && ReadsBack(parse) && NamesOnePort(define)
    }

    function SavedPort(): nat
      reads this, machine, machine.disk
    {
      ResolvedPort(ConfiguredPort(machine.disk.files, preferences, parse))
    }

    constructor (machine: Machine, runtimes: ManagedRoot, managedRoot: string, preferences: Path, parse: Parser)
      requires machine.Valid() && runtimes.Valid()
      requires preferences.directory != machine.plist.directory && ReadsBack(parse)
      ensures Valid() && this.machine == machine && this.runtimes == runtimes && this.managedRoot == managedRoot
      ensures this.preferences == preferences && this.parse == parse && define == DaemonPlist
    {
      this.machine, this.runtimes, this.managedRoot := machine, runtimes, managedRoot;
      this.preferences := preferences;
      this.parse := parse;
      this.define := DaemonPlist;
      DaemonPlistNamesOnePort();
    }

    ghost function World(): Service
      reads this, machine, machine.disk
    {
      Service(if machine.plist in machine.disk.files then Some(machine.disk.files[machine.plist].text) else None,
              machine.job, SavedPort())
    }

    // Where the runtime of a manifest is staged.
    function RuntimeDir(m: Manifest): string { Beside(managedRoot, m.runtimeVersion) }

    // The definition on disk is `text`, launchd runs it, and every baseline session is accounted for on the port.
    ghost predicate Serves(text: string, port: nat, baseline: set<string>)
      reads this, machine, machine.disk
    {
      machine.OnDisk(text) && machine.job == Loaded(text) && Ready(machine.trace, port, baseline)
    }

    // Now and at every moment since, the definition is as it was or one of the texts, and nothing beside it changed.
    ghost predicate DefinitionConfined(since: nat, before: Files, texts: set<string>)
      reads this, machine, machine.disk
    {
      Confined(before, machine.disk.files, machine.plist, texts) && machine.CrashesConfined(since, before, texts)
    }

    // ---------- install_unloaded_service ----------

    method RestorePlist(previous: Option<string>, ghost texts: set<string>) returns (ok: bool)
      requires Valid() && (previous.Some? ==> previous.value in texts)
      modifies machine.disk, machine`trace
      ensures Valid() && old(machine.trace) <= machine.trace && old(machine.disk.crashes) <= machine.disk.crashes
      ensures ok && previous.Some? ==> machine.OnDisk(previous.value)
      ensures ok && previous.None? ==> machine.plist !in machine.disk.files
      ensures forall p: Path :: p.directory != machine.plist.directory ==> Same(old(machine.disk.files), machine.disk.files, p)
      ensures previous.Some? ==> Confined(old(machine.disk.files), machine.disk.files, machine.plist, texts)
      ensures previous.Some? ==> machine.CrashesConfined(|old(machine.disk.crashes)|, old(machine.disk.files), texts)
      ensures previous.None? ==> forall k :: |old(machine.disk.crashes)| <= k < |machine.disk.crashes| ==>
                machine.disk.crashes[k] in {old(machine.disk.files), old(machine.disk.files) - {machine.plist}}
      ensures previous.None? ==> machine.disk.files in {old(machine.disk.files), old(machine.disk.files) - {machine.plist}}
    {
      match previous {
        case Some(text) => ok := machine.WritePlist(text, texts);
        case None =>
          ok := true;
          if machine.plist in machine.disk.files {
            ok := machine.disk.RemoveFile(machine.plist);
          }
      }
    }

    // The texts the definition may hold from now on: as it was, or the new one.
    ghost function Texts(newPlist: string): set<string>
      reads this, machine, machine.disk
    {
      {newPlist} + if machine.plist in machine.disk.files then {machine.disk.files[machine.plist].text} else {}
    }

    method InstallUnloadedService(port: nat, newPlist: string) returns (r: StartOutcome)
      requires Valid() && Armed(machine.trace)
      modifies machine`job, machine`trace, machine.disk
      ensures Valid() && old(machine.trace) <= machine.trace && old(machine.disk.crashes) <= machine.disk.crashes
      ensures r.Started? ==> machine.OnDisk(newPlist) && machine.job == Loaded(newPlist) && Listening(machine.trace, port)
      ensures r.NotStarted? ==> machine.job == old(machine.job) && Same(old(machine.disk.files), machine.disk.files, machine.plist)
      ensures r.Restored? ==> PlistAsBefore(old(machine.disk.files))
      ensures DefinitionConfined(|old(machine.disk.crashes)|, old(machine.disk.files), old(Texts(newPlist)))
    {
      ghost var texts := Texts(newPlist);
      ghost var before, since := machine.disk.files, |machine.disk.crashes|;
      var previous := if machine.plist in machine.disk.files then Some(machine.disk.files[machine.plist].text) else None;
      var prepared: bool := *;
      if !prepared { return NotStarted; }
      var written := machine.WritePlist(newPlist, texts);
      assert DefinitionConfined(since, before, texts);
      if !written { return NotStarted; }
      var started := machine.Bootstrap();
      if started {
        var listening := machine.WaitUntilListening(port);
        started := listening.Ok?;
      }
      if started { return Started; }
      var restored := TakeBack(previous, before, since, texts);
      r := if restored then Restored else NotRestored;
    }

    // Stop what a failed start may have left and put the earlier definition, or its absence, back.
    method TakeBack(previous: Option<string>, ghost before: Files, ghost since: nat, ghost texts: set<string>) returns (ok: bool)
      requires Valid() && since <= |machine.disk.crashes| && (previous.Some? ==> previous.value in texts)
      requires previous == if machine.plist in before then Some(before[machine.plist].text) else None
      requires DefinitionConfined(since, before, texts)
      modifies machine`job, machine`trace, machine.disk
      ensures Valid() && old(machine.trace) <= machine.trace && old(machine.disk.crashes) <= machine.disk.crashes
      ensures ok ==> PlistAsBefore(before)
      ensures DefinitionConfined(since, before, texts)
    {
      var stopped := machine.BootoutIfLoaded();
      ghost var middle := machine.disk.files;
      ok := RestorePlist(previous, texts);
      if previous.None? {
        RemovalIsConfined(before, middle, machine.plist, texts);
      }
    }

    // ---------- install_runtime ----------

    // The service is loaded: leave a current one alone, and update any other with its sessions.
    method UpdateInstalled(port: nat, newPlist: string)
      returns (r: Result<InstallOutcome, InstallError>, ghost baseline: set<string>)
      requires Valid()
      modifies machine`job, machine`trace, machine.disk
      ensures Valid() && old(machine.trace) <= machine.trace && old(machine.disk.crashes) <= machine.disk.crashes
      ensures r.Ok? ==> r.value.Current? || r.value.Updated?
      ensures r.Err? ==> r.error.NotListening? || r.error.NoRollbackDefinition? || r.error.BaselineUnknown? || r.error.UpdateFailed?
      ensures r == Ok(Current) ==>
                && machine.disk.files == old(machine.disk.files) && machine.job == old(machine.job)
                && machine.plist in machine.disk.files && machine.disk.files[machine.plist].text == newPlist
                && Listening(machine.trace, port)
      ensures (r.Ok? && r.value.Updated?) || (r.Err? && r.error.UpdateFailed?) ==>
                machine.plist in old(machine.disk.files) && Captured(machine.trace, |old(machine.trace)|, port, baseline)
      ensures r.Ok? && r.value.Updated? ==> Serves(newPlist, port, baseline) && r.value.preserved == |baseline|
      ensures r == Err(UpdateFailed(RolledBack)) ==> Serves(old(machine.disk.files)[machine.plist].text, port, baseline)
      ensures r.Err? && r.error.UpdateFailed? ==> !r.error.outcome.Updated?
      ensures r.Err? && (r.error.UpdateFailed? ==> r.error.outcome.NotPrepared?) ==>
                machine.disk.files == old(machine.disk.files) && machine.job == old(machine.job)
      ensures DefinitionConfined(|old(machine.disk.crashes)|, old(machine.disk.files), old(Texts(newPlist)))
    {
      baseline := {};
      ghost var texts := Texts(newPlist);
      if machine.plist !in machine.disk.files { return Err(NoRollbackDefinition), baseline; }
      var previous := machine.disk.files[machine.plist].text;
      if previous == newPlist {
        var listening := machine.WaitUntilListening(port);
        return if listening.Ok? then Ok(Current) else Err(NotListening), baseline;
      }
      var captured := machine.CaptureBaseline(port);
      if captured.Err? { return Err(BaselineUnknown), baseline; }
      baseline := captured.value;
      ghost var taken := machine.trace;
      var outcome := machine.UpdateLoadedService(port, previous, newPlist, captured.value);
      CapturedStays(taken, machine.trace, |old(machine.trace)|, port, baseline);
      assert texts == {previous, newPlist};
      r := if outcome.Updated? then Ok(InstallOutcome.Updated(|captured.value|)) else Err(UpdateFailed(outcome));
    }

    // No service is loaded: start one, unless something else answers on the port.
    method InstallFresh(port: nat, newPlist: string) returns (r: Result<InstallOutcome, InstallError>)
      requires Valid() && Armed(machine.trace)
      modifies machine`job, machine`trace, machine.disk
      ensures Valid() && old(machine.trace) <= machine.trace && old(machine.disk.crashes) <= machine.disk.crashes
      ensures r.Ok? ==> r.value.Installed?
      ensures r.Err? ==> r.error.ForeignService? || r.error.StartFailed?
      ensures r.Ok? ==> machine.OnDisk(newPlist) && machine.job == Loaded(newPlist) && Listening(machine.trace, port)
      ensures r == Err(StartFailed(Restored)) ==> PlistAsBefore(old(machine.disk.files))
      ensures r == Err(ForeignService) ==> machine.disk.files == old(machine.disk.files) && machine.job == old(machine.job)
      ensures DefinitionConfined(|old(machine.disk.crashes)|, old(machine.disk.files), old(Texts(newPlist)))
    {
      var health := machine.HealthOnce(port);
      if health.Ok? { return Err(ForeignService); }
      var start := InstallUnloadedService(port, newPlist);
      r := if start.Started? then Ok(Installed) else Err(StartFailed(start));
    }

    // The definition that was on disk is there again, or none is where none was.
    ghost predicate PlistAsBefore(before: Files)
      reads this, machine, machine.disk
    {
      if machine.plist in before then machine.OnDisk(before[machine.plist].text) else machine.plist !in machine.disk.files
    }

    // Make the service run a definition whose runtime is there.
    method InstallDefinition(port: nat, plist: string) returns (r: Result<InstallOutcome, InstallError>, ghost baseline: set<string>)
      requires Valid()
      modifies machine`job, machine`trace, machine.disk
      ensures Valid() && old(machine.trace) <= machine.trace && old(machine.disk.crashes) <= machine.disk.crashes
      ensures r == Ok(Current) ==>
                && machine.disk.files == old(machine.disk.files) && machine.job == old(machine.job) && !machine.job.Absent?
                && machine.plist in machine.disk.files
                && machine.disk.files[machine.plist].text == plist
                && Listening(machine.trace, port)
      ensures (r.Ok? && r.value.Updated?) || (r.Err? && r.error.UpdateFailed?) ==>
                machine.plist in old(machine.disk.files) && Captured(machine.trace, |old(machine.trace)|, port, baseline)
      ensures r.Ok? && r.value.Updated? ==>
                Serves(plist, port, baseline) && r.value.preserved == |baseline|
      ensures r == Err(UpdateFailed(RolledBack)) ==>
                Serves(old(machine.disk.files)[machine.plist].text, port, baseline)
      ensures r == Ok(Installed) ==>
                && machine.OnDisk(plist)
                && machine.job == Loaded(plist)
                && Listening(machine.trace, port)
      ensures r == Err(StartFailed(Restored)) ==> PlistAsBefore(old(machine.disk.files))
      ensures r.Err? && r.error.UpdateFailed? ==> !r.error.outcome.Updated?
      ensures r.Err? && r.error.StartFailed? ==> old(machine.job).Leaving? || old(machine.job).Absent?
      ensures r.Err? && (r.error.UpdateFailed? ==> r.error.outcome.NotPrepared?) && !r.error.StartFailed? ==>
                && machine.disk.files == old(machine.disk.files)
                && (machine.job == old(machine.job) || (old(machine.job).Leaving? && machine.job.Absent?))
      ensures DefinitionConfined(|old(machine.disk.crashes)|, old(machine.disk.files), old(Texts(plist)))
    {
      baseline := {};
      var loaded := machine.ServiceIsLoaded();
      if loaded.Err? { return Err(Unprepared), baseline; }
      if loaded.value {
        r, baseline := UpdateInstalled(port, plist);
      } else {
        r := InstallFresh(port, plist);
      }
    }

    // Stage the bundled runtime and make the service run it. The baseline is what the running daemon listed before it
    // was stopped; an update and a rollback both account for all of it.
    method InstallRuntime(config: Config, bundled: Manifest)
      returns (r: Result<InstallOutcome, InstallError>, ghost baseline: set<string>)
      requires Valid()
      modifies machine`job, machine`trace, machine.disk, runtimes
      ensures Valid() && old(machine.trace) <= machine.trace && old(machine.disk.crashes) <= machine.disk.crashes
      ensures r.Ok? ==> runtimes.Holds(bundled)
      ensures r == Ok(Current) ==>
                && machine.disk.files == old(machine.disk.files) && machine.job == old(machine.job) && !machine.job.Absent?
                && machine.plist in machine.disk.files
                && machine.disk.files[machine.plist].text == define(config, RuntimeDir(bundled))
                && Listening(machine.trace, config.port)
      ensures (r.Ok? && r.value.Updated?) || (r.Err? && r.error.UpdateFailed?) ==>
                machine.plist in old(machine.disk.files) && Captured(machine.trace, |old(machine.trace)|, config.port, baseline)
      ensures r.Ok? && r.value.Updated? ==>
                Serves(define(config, RuntimeDir(bundled)), config.port, baseline) && r.value.preserved == |baseline|
      ensures r == Err(UpdateFailed(RolledBack)) ==>
                Serves(old(machine.disk.files)[machine.plist].text, config.port, baseline)
      ensures r == Ok(Installed) ==>
                && machine.OnDisk(define(config, RuntimeDir(bundled)))
                && machine.job == Loaded(define(config, RuntimeDir(bundled)))
                && Listening(machine.trace, config.port)
      ensures r == Err(StartFailed(Restored)) ==> PlistAsBefore(old(machine.disk.files))
      ensures r.Err? && r.error.UpdateFailed? ==> !r.error.outcome.Updated?
      ensures r.Err? && r.error.StartFailed? ==> old(machine.job).Leaving? || old(machine.job).Absent?
      ensures r.Err? && (r.error.UpdateFailed? ==> r.error.outcome.NotPrepared?) && !r.error.StartFailed? ==>
                && machine.disk.files == old(machine.disk.files)
                && (machine.job == old(machine.job) || (old(machine.job).Leaving? && machine.job.Absent?))
      ensures DefinitionConfined(|old(machine.disk.crashes)|, old(machine.disk.files),
                                 old(Texts(define(config, RuntimeDir(bundled)))))
    {
      baseline := {};
      var configured: bool := *; // validate_config
      if !configured { return Err(Unprepared), baseline; }
      ghost var staging;
      var staged;
      staged, staging := runtimes.StageRuntime(bundled);
      if !staged { return Err(Unprepared), baseline; }
      var plist := define(config, RuntimeDir(bundled));
      var readable: bool := *;
      if !readable { return Err(Unprepared), baseline; }
      r, baseline := InstallDefinition(config.port, plist);
      // install_cli_link follows; its failure is only reported.
    }

    // Install for one port: on the saved port this keeps a service in order, on another one only its failure does.
    method InstallAt(config: Config, bundled: Manifest)
      returns (r: Result<InstallOutcome, InstallError>, ghost baseline: set<string>)
      requires Valid()
      modifies machine`job, machine`trace, machine.disk, runtimes
      ensures Valid() && old(machine.trace) <= machine.trace
      ensures Same(old(machine.disk.files), machine.disk.files, preferences)
      ensures r.Ok? && r.value.Updated? ==>
                && Captured(machine.trace, |old(machine.trace)|, config.port, baseline)
                && Serves(define(config, RuntimeDir(bundled)), config.port, baseline)
      ensures r != Err(UpdateFailed(RollbackFailed)) ==> OrderAfter(old(World()), World(), config.port, r.Ok?, define)
    {
      r, baseline := InstallRuntime(config, bundled);
      assert SavedPort() == old(SavedPort());
      if r.Ok? && InOrder(old(World()), define) { InOrderOnOnePort(World(), config, RuntimeDir(bundled), define); }
    }

    // The reconciliation at launch and on Recover: install for the saved port, or for the default when the settings
    // cannot be read.
    method Reconcile(config: Config, bundled: Manifest, readable: bool)
      returns (r: Result<InstallOutcome, InstallError>, ghost baseline: set<string>, ghost port: nat)
      requires Valid()
      modifies machine`job, machine`trace, machine.disk, runtimes
      ensures Valid() && old(machine.trace) <= machine.trace
      ensures port == if readable then old(SavedPort()) else DEFAULT_LOOPBACK_PORT
      ensures Same(old(machine.disk.files), machine.disk.files, preferences)
      ensures r.Ok? && r.value.Updated? ==>
                && Captured(machine.trace, |old(machine.trace)|, port, baseline)
                && Serves(define(config.(port := port), RuntimeDir(bundled)), port, baseline)
      ensures r != Err(UpdateFailed(RollbackFailed)) ==> OrderAfter(old(World()), World(), port, r.Ok?, define)
    {
      var configured := if readable then ConfiguredPort(machine.disk.files, preferences, parse) else None;
      var resolved := ResolvedPort(configured);
      port := resolved;
      r, baseline := InstallAt(config.(port := resolved), bundled);
    }

    // ---------- reconfigure_port ----------

    // The definition is exactly as it was, or one of the two texts, synced.
    ghost predicate PlistIsOldOrNew(before: Files, oldPlist: string, newPlist: string)
      reads this, machine, machine.disk
    {
      Same(before, machine.disk.files, machine.plist) || machine.OnDisk(oldPlist) || machine.OnDisk(newPlist)
    }

    // Move the service, save the port, and take the move back if saving fails.
    method MoveAndSave(oldPort: nat, requested: nat, oldPlist: string, newPlist: string, baseline: set<string>)
      returns (r: PortOutcome)
      requires Valid() && 1024 <= requested <= U16_MAX && "" !in baseline
      modifies machine`job, machine`trace, machine.disk
      ensures Valid() && (r.Moved? || r.MoveFailed? || r.SaveRolledBack? || r.SaveRollbackFailed?)
      ensures old(machine.trace) <= machine.trace
      ensures r.MoveFailed? ==> !r.outcome.Updated?
      ensures r.Moved? ==> Serves(newPlist, requested, baseline) && SavedPort() == requested && r.preserved == |baseline|
      ensures !r.Moved? ==> Same(old(machine.disk.files), machine.disk.files, preferences)
      ensures r == MoveFailed(RolledBack) || r.SaveRolledBack? ==> Serves(oldPlist, oldPort, baseline)
      ensures r == MoveFailed(NotPrepared) ==> machine.job == old(machine.job) && machine.disk.files == old(machine.disk.files)
      ensures PlistIsOldOrNew(old(machine.disk.files), oldPlist, newPlist)
    {
      var outcome := machine.MigrateLoadedService(oldPort, requested, oldPlist, newPlist, baseline, false);
      if !outcome.Updated? { return MoveFailed(outcome); }
      var saved := SaveConfiguredPort(machine.disk, preferences, requested);
      if saved { return Moved(|baseline|); }
      var rollback := machine.MigrateLoadedService(requested, oldPort, newPlist, oldPlist, baseline, false);
      r := if rollback.Updated? then SaveRolledBack else SaveRollbackFailed;
    }

    // The configured service moves to another port.
    method MoveService(oldConfig: Config, requested: nat, bundled: Manifest)
      returns (r: PortOutcome, ghost baseline: set<string>)
      requires Valid() && 1024 <= requested <= U16_MAX
      modifies machine`job, machine`trace, machine.disk, runtimes
      ensures Valid() && old(machine.trace) <= machine.trace && !r.Reinstalled?
      ensures r.Moved? ==>
                && runtimes.Holds(bundled) && SavedPort() == requested && r.preserved == |baseline|
                && Serves(define(oldConfig.(port := requested), RuntimeDir(bundled)), requested, baseline)
      ensures !r.Refused? ==>
                machine.plist in old(machine.disk.files) && Captured(machine.trace, |old(machine.trace)|, oldConfig.port, baseline)
      ensures !r.Moved? ==> Same(old(machine.disk.files), machine.disk.files, preferences)
      ensures r == MoveFailed(RolledBack) || r.SaveRolledBack? ==>
                Serves(old(machine.disk.files)[machine.plist].text, oldConfig.port, baseline)
      ensures r.Refused? || r == MoveFailed(NotPrepared) ==>
                && machine.disk.files == old(machine.disk.files)
                && (machine.job == old(machine.job) || (old(machine.job).Leaving? && machine.job.Absent?))
      ensures r.MoveFailed? ==> !r.outcome.Updated?
      ensures machine.plist in old(machine.disk.files) ==>
                PlistIsOldOrNew(old(machine.disk.files), old(machine.disk.files)[machine.plist].text,
                                define(oldConfig.(port := requested), RuntimeDir(bundled)))
    {
      baseline := {};
      var available: bool := *;  // ensure_port_available
      if !available { return Refused, baseline; }
      ghost var staging;
      var staged;
      staged, staging := runtimes.StageRuntime(bundled);
      var read: bool := *;       // reading the current definition
      if !staged || !read || machine.plist !in machine.disk.files { return Refused, baseline; }
      var oldPlist := machine.disk.files[machine.plist].text;
      var loaded := machine.ServiceIsLoaded();
      if loaded != Ok(true) { return Refused, baseline; }
      var newPlist := define(oldConfig.(port := requested), RuntimeDir(bundled));
      var captured := machine.CaptureBaseline(oldConfig.port);
      if captured.Err? { return Refused, baseline; }
      baseline := captured.value;
      ghost var taken := machine.trace;
      r := MoveAndSave(oldConfig.port, requested, oldPlist, newPlist, captured.value);
      CapturedStays(taken, machine.trace, |old(machine.trace)|, oldConfig.port, baseline);
    }

    // ... and stays in order, unless rolling back failed as well.
    method MoveInOrder(oldConfig: Config, requested: nat, bundled: Manifest)
      returns (r: PortOutcome, ghost baseline: set<string>)
      requires Valid() && 1024 <= requested <= U16_MAX
      modifies machine`job, machine`trace, machine.disk, runtimes
      ensures Valid() && old(machine.trace) <= machine.trace && !r.Reinstalled?
      ensures r.Moved? ==>
                && runtimes.Holds(bundled) && SavedPort() == requested && r.preserved == |baseline|
                && Serves(define(oldConfig.(port := requested), RuntimeDir(bundled)), requested, baseline)
      ensures !r.Refused? ==>
                machine.plist in old(machine.disk.files) && Captured(machine.trace, |old(machine.trace)|, oldConfig.port, baseline)
      ensures !r.Moved? ==> Same(old(machine.disk.files), machine.disk.files, preferences)
      ensures r == MoveFailed(RolledBack) || r.SaveRolledBack? ==>
                Serves(old(machine.disk.files)[machine.plist].text, oldConfig.port, baseline)
      ensures r.Refused? || r == MoveFailed(NotPrepared) ==>
                && machine.disk.files == old(machine.disk.files)
                && (machine.job == old(machine.job) || (old(machine.job).Leaving? && machine.job.Absent?))
      ensures machine.plist in old(machine.disk.files) ==>
                PlistIsOldOrNew(old(machine.disk.files), old(machine.disk.files)[machine.plist].text,
                                define(oldConfig.(port := requested), RuntimeDir(bundled)))
      ensures !DoubleFailure(r) ==> OrderAfter(old(World()), World(), oldConfig.port, false, define)
    {
      r, baseline := MoveService(oldConfig, requested, bundled);
      if r.Moved? {
        InOrderOnOnePort(World(), oldConfig.(port := requested), RuntimeDir(bundled), define);
      } else {
        assert SavedPort() == old(SavedPort());
        assert r.MoveFailed? ==> r.outcome.NotPrepared? || r.outcome.RolledBack? || r.outcome.RollbackFailed?;
      }
    }

    // `oldPort` is the saved port, or the default when the settings cannot be read.
    method ReconfigurePort(config: Config, requested: nat, bundled: Manifest, readable: bool)
      returns (r: PortOutcome, ghost baseline: set<string>, ghost oldPort: nat)
      requires Valid() && requested <= U16_MAX
      modifies machine`job, machine`trace, machine.disk, runtimes
      ensures Valid() && old(machine.trace) <= machine.trace
      ensures 1024 <= requested ==> oldPort == if readable then old(SavedPort()) else DEFAULT_LOOPBACK_PORT
      // Ok: the saved port and the loaded definition both name the request, and no session live before was lost.
      ensures r.Moved? ==>
                && SavedPort() == requested && r.preserved == |baseline|
                && Serves(define(config.(port := requested), RuntimeDir(bundled)), requested, baseline)
                && runtimes.Holds(bundled)
      // Whatever was stopped, the baseline had been taken from the daemon on the old port.
      ensures !r.Refused? && !r.Reinstalled? ==>
                machine.plist in old(machine.disk.files) && Captured(machine.trace, |old(machine.trace)|, oldPort, baseline)
      // Every failure leaves the saved port file as it was.
      ensures !r.Moved? ==> Same(old(machine.disk.files), machine.disk.files, preferences)
      // "Rolled back safely": the service is again what it was, with the same baseline guarantee on the old port.
      ensures r == MoveFailed(RolledBack) || r.SaveRolledBack? ==>
                Serves(old(machine.disk.files)[machine.plist].text, oldPort, baseline)
      ensures r.Refused? || r == MoveFailed(NotPrepared) ==>
                && machine.disk.files == old(machine.disk.files)
                && (machine.job == old(machine.job) || (old(machine.job).Leaving? && machine.job.Absent?))
      // Asked for the port it has, the service is installed like at launch.
      ensures r.Reinstalled? ==> oldPort == requested
      ensures r.Reinstalled? && r.installed.Ok? && r.installed.value.Updated? ==>
                && Captured(machine.trace, |old(machine.trace)|, oldPort, baseline)
                && Serves(define(config.(port := requested), RuntimeDir(bundled)), requested, baseline)
      ensures !DoubleFailure(r) ==> OrderAfter(old(World()), World(), oldPort, r.Reinstalled? && r.installed.Ok?, define)
      // Even a double failure leaves exactly the old or exactly the new definition.
      ensures !r.Reinstalled? && machine.plist in old(machine.disk.files) ==>
                PlistIsOldOrNew(old(machine.disk.files), old(machine.disk.files)[machine.plist].text,
                                define(config.(port := requested), RuntimeDir(bundled)))
    {
      baseline := {};
      oldPort := SavedPort();
      if requested < 1024 { return Refused, baseline, oldPort; }
      var configured := if readable then ConfiguredPort(machine.disk.files, preferences, parse) else None;
      var oldConfig := config.(port := ResolvedPort(configured));
      oldPort := oldConfig.port;
      if oldConfig.port == requested {
        var installed;
        assert oldConfig == config.(port := requested);
        installed, baseline := InstallAt(oldConfig, bundled);
        return Reinstalled(installed), baseline, oldPort;
      }
      assert oldConfig.(port := requested) == config.(port := requested);
      r, baseline := MoveInOrder(oldConfig, requested, bundled);
    }
  }
}
