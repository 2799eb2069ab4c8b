/** The Windows branch of lifecycle.rs `reconfigure_port`: move the host, save the port, and move back if saving fails. */
module WindowsPort {
  import opened Wrappers
  import opened Text
  import opened AtomicFile
  import opened WindowsRunner
  import Supervisor
  import opened WindowsRuntime
  import L = Lifecycle
  import Launchd

  datatype Outcome =
    | Moved(preserved: nat)
    | Reinstalled(installed: Result<Option<nat>, InstallError>)
    | Refused
    | MoveFailed(error: InstallError)
    | SaveRestored
    | SaveRestoreFailed(error: InstallError)

  lemma NoQuoteIn(a: string, b: string)
    requires '"' !in a && '"' !in b
    ensures '"' !in a + b
  {
  }

  // A registered definition with quote-free paths is read back with its port.
  lemma RegisteredPort(host: Host, version: string, port: nat)
    requires 1024 <= port <= U16_MAX && '"' !in host.root && '"' !in version
    ensures Supervisor.Parse(Supervisor.CommandLine(host.DefinitionFor(version, port))) == Ok(host.DefinitionFor(version, port))
  {
    var d := host.DefinitionFor(version, port);
    NoQuoteIn(host.root, "\\");
    NoQuoteIn(host.root + "\\", version);
    NoQuoteIn(host.root + "\\" + version, "\\sessionsd.exe");
    Supervisor.RoundTrip(d);
  }

  // The port a registered value names, if it can be read.
  ghost function PortOf(value: Option<string>): Option<nat> {
    match value
    case None => None
    case Some(text) => match Supervisor.Parse(text) case Ok(d) => Some(d.port) case Err(_) => None
  }

  // Which ports agree after ports that agreed, outcome by outcome: the registered port is now `port`, and `kept` says
  // that the registered value is the entry value. A move whose last runner activation failed, a way back that failed
  // before it registered anything, and an install for another port than the saved one leave them apart; only where a
  // rollback failed half way is it open.
  ghost predicate AgreesUnless(r: Outcome, requested: nat, saved: nat, port: Option<nat>, kept: bool) {
    match r
    case Moved(_) => port == Some(requested)
    case Refused => port == Some(saved)
    case SaveRestored => port == Some(saved)
    case Reinstalled(_) => port == Some(saved) <==> requested == saved || kept
    case MoveFailed(e) =>
      && (e.RunnerNotActivated? ==> port == Some(requested) && requested != saved)
      && (!e.RunnerNotActivated? && e != HandoffFailed(NotRestored) ==> port == Some(saved))
      && (port == Some(saved) <==> requested == saved || kept)
    case SaveRestoreFailed(e) =>
      && (e.RunnerNotActivated? ==> port == Some(saved))
      && (!e.RunnerNotActivated? && e != HandoffFailed(NotRestored) ==> port != Some(saved))
  }

  // The registered port before and after a move that failed. A failed way back ends with one of the two definitions of
  // this version, and mostly it is known which.
  ghost predicate FailureLeaves(r: Outcome, current: nat, requested: nat, before: Option<nat>, after: Option<nat>, kept: bool) {
    match r
    case MoveFailed(e) =>
      && (kept || after == Some(requested))
      && (e.RunnerNotActivated? ==> before == Some(current) && after == Some(requested))
      && (!e.RunnerNotActivated? && e != HandoffFailed(NotRestored) ==> kept)
    case SaveRestoreFailed(e) =>
      && before == Some(current) && (after == before || after == Some(requested))
      && (e.RunnerNotActivated? ==> after == before)
      && (!e.RunnerNotActivated? && e != HandoffFailed(NotRestored) ==> after == Some(requested))
    case _ => true
  }

  // The sessions live before anything was stopped are the ones listed on the requested port.
  ghost predicate MovedWith(trace: seq<Event>, since: nat, current: nat, requested: nat, version: string, baseline: set<string>) {
    Captured(trace, since, current, baseline) && StartedAfterStop(trace, since, current) && Ready(trace, requested, version, baseline)
  }

  // There and back: the sessions live at first were all listed on the requested port, and the ones live before the
  // way back are all listed on the current port again.
  ghost predicate MovedBackWith(trace: seq<Event>, since: nat, current: nat, requested: nat, version: string, baseline: set<string>) {
    exists middle: nat, first: set<string> ::
      && since <= middle <= |trace|
      && MovedWith(trace[..middle], since, current, requested, version, first)
      && MovedWith(trace, middle, requested, current, version, baseline)
  }

  lemma ThereAndBack(there: seq<Event>, back: seq<Event>, since: nat, current: nat, requested: nat, version: string,
                     first: set<string>, baseline: set<string>)
    requires since <= |there| && there <= back
    requires MovedWith(there, since, current, requested, version, first)
    requires MovedWith(back, |there|, requested, current, version, baseline)
    ensures MovedBackWith(back, since, current, requested, version, baseline)
  {
    assert back[..|there|] == there;
  }

  class Owner {
    const host: Host
    const disk: Disk
    const preferences: Path
    const parse: L.Parser

    ghost predicate Valid()
      reads this, host, host.runners, disk
    {
      host.Valid() && disk.Valid() && L.ReadsBack(parse)
    }

    constructor (host: Host, disk: Disk, preferences: Path, parse: L.Parser)
      requires host.Valid() && disk.Valid() && L.ReadsBack(parse)
      ensures Valid() && this.host == host && this.disk == disk && this.preferences == preferences && this.parse == parse
    {
      this.host, this.disk, this.preferences, this.parse := host, disk, preferences, parse;
    }

    function SavedPort(): nat
      reads this, disk
    {
      L.ResolvedPort(L.ConfiguredPort(disk.files, preferences, parse))
    }

    ghost predicate Registers(port: nat)
      reads this, host
    {
      PortOf(host.registry) == Some(port)
    }

    // The registered supervisor uses the saved port.
    ghost predicate Agreement()
      reads this, host, disk
    {
      Registers(SavedPort())
    }

    // Move the host; on success exactly the requested port is registered.
    method MoveHost(current: nat, requested: nat, version: string, digest: string, intent: Intent, answers: Answers)
      returns (r: Result<nat, InstallError>, ghost baseline: set<string>)
      requires host.Valid() && current != requested && 1024 <= requested <= U16_MAX && '"' !in host.root && '"' !in version
      modifies host, host.runners
      ensures host.Valid() && old(host.trace) <= host.trace
      ensures r.Ok? ==>
                && old(Registers(current)) && Registers(requested) && host.runners.PinnedMatches(digest)
                && MovedWith(host.trace, |old(host.trace)|, current, requested, version, baseline) && r.value == |baseline|
      ensures r.Err? && r.error.RunnerNotActivated? ==> Registers(requested) && old(Registers(current))
      ensures r.Err? && !r.error.RunnerNotActivated? && r.error != HandoffFailed(NotRestored) ==> host.registry == old(host.registry)
      ensures host.registry == old(host.registry) || Registers(requested)
      ensures old(host.MovesThrough(current, requested, version, intent, answers)) ==>
                Registers(requested) && EndsWithActivation(r, answers.created || old(host.runners.PinnedMatches(digest)))
    {
      var moved;
      ghost var oldVersion;
      moved, baseline, oldVersion := host.MovePort(current, requested, version, digest, intent, answers);
      RegisteredPort(host, version, requested);
      r := if moved.Ok? then Ok(moved.value.value) else Err(moved.error);
    }

    // Saving failed: move back, without asking again whether discovery has settled.
    method MoveBack(current: nat, requested: nat, version: string, digest: string, answers: Answers, ghost since: nat, ghost first: set<string>)
      returns (r: Outcome, ghost baseline: set<string>)
      requires host.Valid() && current != requested && '"' !in host.root && '"' !in version && 1024 <= current <= U16_MAX
      requires since <= |host.trace| && MovedWith(host.trace, since, current, requested, version, first)
      modifies host, host.runners
      ensures host.Valid() && old(host.trace) <= host.trace && (r.SaveRestored? || r.SaveRestoreFailed?)
      ensures r.SaveRestored? ==> Registers(current) && MovedBackWith(host.trace, since, current, requested, version, baseline)
      ensures r.SaveRestoreFailed? && (r.error.RunnerNotActivated? || host.registry != old(host.registry)) ==> Registers(current)
      ensures r.SaveRestoreFailed? && !r.error.RunnerNotActivated? && r.error != HandoffFailed(NotRestored) ==>
                host.registry == old(host.registry)
      ensures old(host.MovesThrough(requested, current, version, Rollback, answers)) ==> Registers(current)
    {
      var restored;
      restored, baseline := MoveHost(requested, current, version, digest, Rollback, answers);
      if restored.Err? { return SaveRestoreFailed(restored.error), baseline; }
      ThereAndBack(old(host.trace), host.trace, since, current, requested, version, first, baseline);
      r := SaveRestored;
    }

    // Move, save, and move back if saving fails.
    method MoveAndSave(current: nat, requested: nat, version: string, digest: string, answers: Answers)
      returns (r: Outcome, ghost baseline: set<string>)
      requires Valid() && current != requested && '"' !in host.root && '"' !in version
      requires 1024 <= current <= U16_MAX && 1024 <= requested <= U16_MAX
      modifies host, host.runners, disk
      ensures Valid() && !r.Refused? && !r.Reinstalled? && old(host.trace) <= host.trace
      ensures r.Moved? ==>
                && Registers(requested) && SavedPort() == requested
                && MovedWith(host.trace, |old(host.trace)|, current, requested, version, baseline) && r.preserved == |baseline|
                && host.runners.PinnedMatches(digest)
      ensures !r.Moved? ==> Launchd.Same(old(disk.files), disk.files, preferences)
      ensures r.SaveRestored? ==>
                && Registers(current) && old(Registers(current))
                && MovedBackWith(host.trace, |old(host.trace)|, current, requested, version, baseline)
      ensures FailureLeaves(r, current, requested, old(PortOf(host.registry)), PortOf(host.registry), host.registry == old(host.registry))
      ensures (old(host.MovesThrough(current, requested, version, Requested, answers)) && !answers.created
               && !old(host.runners.PinnedMatches(digest))) ==> r.MoveFailed? && r.error.RunnerNotActivated?
    {
      var moved;
      moved, baseline := MoveHost(current, requested, version, digest, Requested, answers);
      if moved.Err? { return MoveFailed(moved.error), baseline; }
      ghost var first := baseline;
      var saved := L.SaveConfiguredPort(disk, preferences, requested);
      if saved { return Moved(moved.value), baseline; }
      var back: Answers :| true;
      r, baseline := MoveBack(current, requested, version, digest, back, |old(host.trace)|, first);
    }

    // The request is the current port: install like at launch, and save nothing.
    method Reinstall(port: nat, version: string, digest: string, answers: Answers)
      returns (r: Result<Option<nat>, InstallError>, ghost baseline: set<string>)
      requires host.Valid() && 1024 <= port <= U16_MAX && '"' !in host.root && '"' !in version
      modifies host, host.runners
      ensures host.Valid() && old(host.trace) <= host.trace
      ensures exists oldVersion: string ::
                SessionsKept(host.trace, |old(host.trace)|, r, port, port, version, baseline, oldVersion, true)
      ensures host.registry == old(host.registry) || Registers(port)
      ensures old(host.RefreshesMatching(port, version, answers)) ==> Registers(port)
    {
      ghost var oldVersion;
      RegisteredPort(host, version, port);
      r, baseline, oldVersion := host.Install(port, version, digest, answers);
    }

    // Success: registered and saved port are the request, every baseline session is listed on it and the verified
    // runner is pinned. Every failure leaves the saved port untouched.
    method ReconfigurePort(requested: nat, version: string, digest: string, readable: bool, answers: Answers)
      returns (r: Outcome, ghost currentPort: nat, ghost baseline: set<string>)
      requires Valid() && requested <= U16_MAX && '"' !in host.root && '"' !in version
      modifies host, host.runners, disk
      ensures Valid() && old(host.trace) <= host.trace
      ensures r.Moved? ==>
                && Registers(requested) && SavedPort() == requested
                && MovedWith(host.trace, |old(host.trace)|, currentPort, requested, version, baseline) && r.preserved == |baseline|
                && host.runners.PinnedMatches(digest)
      ensures !r.Moved? ==> Launchd.Same(old(disk.files), disk.files, preferences)
      ensures r.Refused? ==> host.registry == old(host.registry) && host.running == old(host.running)
      ensures r.Reinstalled? ==>
                currentPort == requested && exists oldVersion: string ::
                  SessionsKept(host.trace, |old(host.trace)|, r.installed, requested, requested, version, baseline, oldVersion, true)
      ensures r.SaveRestored? ==>
                && Registers(currentPort) && old(Registers(currentPort))
                && MovedBackWith(host.trace, |old(host.trace)|, currentPort, requested, version, baseline)
      ensures 1024 <= requested ==> currentPort == if readable then old(SavedPort()) else L.DEFAULT_LOOPBACK_PORT
      ensures old(Agreement()) ==>
                AgreesUnless(r, requested, old(SavedPort()), PortOf(host.registry), host.registry == old(host.registry))
      ensures 1024 <= requested && currentPort == requested && old(host.RefreshesMatching(requested, version, answers)) ==>
                r.Reinstalled? && Registers(requested)
      ensures (1024 <= requested != currentPort && old(host.MovesThrough(currentPort, requested, version, Requested, answers))
               && !answers.created && !old(host.runners.PinnedMatches(digest))) ==> r.MoveFailed? && r.error.RunnerNotActivated?
    {
      baseline, currentPort := {}, 0;
      if requested < 1024 { return Outcome.Refused, currentPort, baseline; }
      var configured := if readable then L.ConfiguredPort(disk.files, preferences, parse) else None;
      var current := L.ResolvedPort(configured);
      currentPort := current;
      if current == requested {
        var installed;
        installed, baseline := Reinstall(current, version, digest, answers);
        return Reinstalled(installed), currentPort, baseline;
      }
      r, baseline := MoveAndSave(current, requested, version, digest, answers);
      assert !r.Moved? ==> SavedPort() == old(SavedPort());
    }

    // An agreeing installation of this version, with a usable runner pinned.
    ghost predicate Installed(saved: nat, version: string)
      requires host.runners.Valid()
      reads this, host, host.runners, disk
    {
      && '"' !in host.root && '"' !in version && '\\' !in version && 1024 <= saved <= U16_MAX && SavedPort() == saved
      && host.registry == Some(Supervisor.CommandLine(host.DefinitionFor(version, saved)))
      && PINNED in host.runners.entries && StableRunnerIsPresent(host.runners.PinnedBytes())
    }

    function AllWell(saved: nat, version: string, health: Health, stop: StopAnswer, created: bool): Answers {
      var seen: Probed := Ok(Some(health));
      Answers(true, true, {host.DefinitionFor(version, saved).daemon}, true, true, seen, seen, Ok({}), stop, true, true, true,
              seen, Ok({}), created)
    }

    lemma InstalledProceeds(saved: nat, requested: nat, version: string, health: Health, stop: StopAnswer, created: bool)
      requires host.Valid() && Installed(saved, version) && health.version == version && !health.discovering
      ensures Agreement() && host.MayStop(saved, requested, version, Requested, AllWell(saved, version, health, stop, created))
      ensures stop.Honoured? ==>
                host.MovesThrough(saved, requested, version, Requested, AllWell(saved, version, health, stop, created))
    {
      RegisteredPort(host, version, saved);
      host.InstalledIsAccepted(version, saved, {host.DefinitionFor(version, saved).daemon});
      host.InstalledIsAccepted(version, requested, {host.DefinitionFor(version, saved).daemon});
    }

    // The directory for a new runner cannot be made: the move happened, its port is not saved.
    method FailedActivationSplitsThePorts(saved: nat, requested: nat, version: string, digest: string, health: Health)
      requires Valid() && Installed(saved, version) && health.version == version && !health.discovering
      requires 1024 <= requested <= U16_MAX && requested != saved && !host.runners.PinnedMatches(digest)
      modifies host, host.runners, disk
      ensures old(Agreement()) && Registers(requested) && SavedPort() == saved && !Agreement()
    {
      InstalledProceeds(saved, requested, version, health, Honoured, false);
      var answers := AllWell(saved, version, health, Honoured, false);
      assert host.MovesThrough(saved, requested, version, Requested, answers) && !answers.created;
      var r;
      ghost var currentPort, baseline;
      r, currentPort, baseline := ReconfigurePort(requested, version, digest, true, answers);
      assert currentPort == saved && r.MoveFailed? && r.error.RunnerNotActivated?;
      assert SavedPort() == old(SavedPort());
    }

    // The stop is refused and leaves nothing running: nothing was written and nothing is brought back.
    method RefusedStopMayLeaveNoDaemon(saved: nat, requested: nat, version: string, digest: string, health: Health)
      requires Valid() && Installed(saved, version) && health.version == version && !health.discovering
      requires requested != saved
      modifies host, host.runners
      ensures host.registry == old(host.registry) && host.running == None
    {
      InstalledProceeds(saved, requested, version, health, RefusedButGone, true);
      var r;
      ghost var baseline, oldVersion;
      r, baseline, oldVersion :=
        host.MoveElsewhere(saved, requested, version, digest, Requested, AllWell(saved, version, health, RefusedButGone, true));
    }

    // The settings cannot be read for a moment, the default port is asked for, and a daemon of the right version
    // answers there: the registered port follows, the saved one does not.
    method UnreadableSettingsSplitThePorts(saved: nat, version: string, digest: string, health: Health)
      requires Valid() && Installed(saved, version) && health.version == version && saved != L.DEFAULT_LOOPBACK_PORT
      modifies host, host.runners, disk
      ensures old(Agreement()) && Registers(L.DEFAULT_LOOPBACK_PORT) && SavedPort() == saved && !Agreement()
    {
      var answers := AllWell(saved, version, health, Honoured, true);
      RegisteredPort(host, version, saved);
      host.InstalledIsAccepted(version, saved, answers.files);
      host.InstalledIsAccepted(version, L.DEFAULT_LOOPBACK_PORT, answers.files);
      var r;
      ghost var currentPort, baseline;
      r, currentPort, baseline := ReconfigurePort(L.DEFAULT_LOOPBACK_PORT, version, digest, false, answers);
      assert SavedPort() == old(SavedPort());
    }
  }
}
