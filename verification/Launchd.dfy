/** lifecycle_service.rs: replacing the per-user launchd service as a transaction.

    The machine is a disk and what launchd holds for the service label. launchctl, the loopback port and the
    daemon's answers are the environment: every call may fail, and answers are arbitrary. `trace` records the
    observations, definition writes and bootstraps the guarantees are about. */
module Launchd {
  import opened Wrappers
  import opened AtomicFile
  import opened Inventory

  // Leaving: bootout was accepted but the label has not disappeared yet.
  datatype Job = Absent | Loaded(definition: string) | Leaving(definition: string)

  datatype Health = Health(ok: bool, name: string)

  datatype Event =
    | Unloaded
    | PortFree(port: nat)
    | BootoutAsked(accepted: bool)
    | Wrote(definition: string)
    | Bootstrapped(ok: bool)
    | Answered(port: nat, health: Health)
    | Listed(port: nat, includeExited: bool, sessions: seq<Session>)

  predicate IsSessionsd(h: Health) { h.ok && h.name == "sessionsd" }

  // The label was seen unloaded, and nothing has been bootstrapped since.
  ghost predicate Armed(trace: seq<Event>) {
    trace != [] &&
    match trace[|trace| - 1]
    case Unloaded => true
    case Bootstrapped(_) => false
    case _ => Armed(trace[..|trace| - 1])
  }

  // Every bootstrap came while armed.
  ghost predicate Guarded(trace: seq<Event>) {
    trace == [] ||
    (var front := trace[..|trace| - 1];
     Guarded(front) && (trace[|trace| - 1].Bootstrapped? ==> Armed(front)))
  }

  // Event j observed the label unloaded, and no bootstrap happened between it and event i.
  ghost predicate UnloadStands(trace: seq<Event>, j: nat, i: nat) {
    j < i <= |trace| && trace[j].Unloaded? && forall k :: j < k < i ==> !trace[k].Bootstrapped?
  }

  lemma {:induction false} ArmedMeansSeenUnloaded(trace: seq<Event>)
    ensures Armed(trace) <==> exists j: nat :: UnloadStands(trace, j, |trace|)
  {
    if trace != [] {
      var n := |trace| - 1;
      var front := trace[..n];
      ArmedMeansSeenUnloaded(front);
      if trace[n].Unloaded? {
        assert UnloadStands(trace, n, |trace|);
      } else if !trace[n].Bootstrapped? {
        assert forall j: nat :: UnloadStands(front, j, n) <==> UnloadStands(trace, j, |trace|);
      }
    }
  }

  // No bootstrap happens without the label having been observed unloaded after the previous bootstrap.
  lemma {:induction false} EveryBootstrapFollowsAnUnload(trace: seq<Event>, i: nat)
    requires Guarded(trace) && i < |trace| && trace[i].Bootstrapped?
    ensures exists j: nat :: UnloadStands(trace, j, i)
  {
    var n := |trace| - 1;
    var front := trace[..n];
    if i < n {
      EveryBootstrapFollowsAnUnload(front, i);
    } else {
      ArmedMeansSeenUnloaded(front);
    }
    assert forall j: nat :: UnloadStands(front, j, i) ==> UnloadStands(trace, j, i);
  }

  // The trace ends with a sessionsd answering on the port and, from it, one inventory accounting for the baseline.
  ghost predicate Ready(trace: seq<Event>, port: nat, baseline: set<string>) {
    && |trace| >= 2
    && trace[|trace| - 2].Answered? && trace[|trace| - 2].port == port && IsSessionsd(trace[|trace| - 2].health)
    && trace[|trace| - 1].Listed? && trace[|trace| - 1].port == port && trace[|trace| - 1].includeExited
    && AllAccounted(baseline, trace[|trace| - 1].sessions)
  }

  ghost predicate Listening(trace: seq<Event>, port: nat) {
    trace != [] && trace[|trace| - 1].Answered? && trace[|trace| - 1].port == port && IsSessionsd(trace[|trace| - 1].health)
  }

  // The last thing written and started since `since` is `text`: right after the port was seen free it was written, and
  // then started with success.
  ghost predicate StartedOnFreePort(trace: seq<Event>, since: nat, port: nat, text: string) {
    exists k: nat :: since <= k && FreeWrittenStarted(trace, k, port, text)
  }

  ghost predicate FreeWrittenStarted(trace: seq<Event>, k: nat, port: nat, text: string) {
    && k + 2 < |trace| && trace[k] == PortFree(port) && trace[k + 1] == Wrote(text) && trace[k + 2] == Bootstrapped(true)
    && Undisturbed(trace, k + 3, |trace|)
  }

  // No definition was written before the port was seen free.
  ghost predicate WritesFollowRelease(trace: seq<Event>, since: nat, port: nat) {
    forall j :: since <= j < |trace| && trace[j].Wrote? ==> j > since && trace[j - 1] == PortFree(port)
  }

  // Nothing was asked to stop, nothing was written and nothing was started.
  ghost predicate Undisturbed(trace: seq<Event>, from: nat, to: nat) {
    forall j :: from <= j < to && j < |trace| ==> !trace[j].Bootstrapped? && !trace[j].BootoutAsked? && !trace[j].Wrote?
  }

  // `baseline` is the live part of an inventory that a healthy sessionsd on the port listed, after `since` and before
  // anything was stopped or started.
  ghost predicate Captured(trace: seq<Event>, since: nat, port: nat, baseline: set<string>) {
    exists k: nat :: since <= k && CapturedAt(trace, k, port, baseline) && Undisturbed(trace, since, k + 3)
  }

  ghost predicate CapturedAt(trace: seq<Event>, k: nat, port: nat, baseline: set<string>) {
    && k + 2 < |trace|
    && trace[k].Answered? && trace[k].port == port && IsSessionsd(trace[k].health)
    && trace[k + 1].Listed? && trace[k + 1].port == port && trace[k + 1].includeExited
    && trace[k + 2].Listed? && trace[k + 2].port == port && !trace[k + 2].includeExited
    && baseline == LiveSessionIds(trace[k + 2].sessions)
  }

  lemma CapturedStays(a: seq<Event>, b: seq<Event>, since: nat, port: nat, baseline: set<string>)
    requires a <= b && Captured(a, since, port, baseline)
    ensures Captured(b, since, port, baseline)
  {
    var k: nat :| since <= k && CapturedAt(a, k, port, baseline) && Undisturbed(a, since, k + 3);
    assert CapturedAt(b, k, port, baseline) && Undisturbed(b, since, k + 3);
  }

  ghost predicate Same(a: Files, b: Files, p: Path) {
    (p in a <==> p in b) && (p in a ==> a[p] == b[p])
  }

  // From `before`, nothing outside path's directory changed, and path is as it was or holds one of `texts`, synced.
  ghost predicate Confined(before: Files, at: Files, path: Path, texts: set<string>) {
    && (forall p: Path :: p.directory != path.directory ==> Same(before, at, p))
    && (Same(before, at, path) || (path in at && at[path].synced && at[path].text in texts))
  }

  lemma WriteIsConfined(before: Files, at: Files, path: Path, text: string, temporary: Path, texts: set<string>)
    requires temporary != path && temporary.directory == path.directory && text in texts
    requires OldOrNew(before, at, path, text, temporary)
    ensures Confined(before, at, path, texts)
  {
    if SameExcept(at, before, temporary) {
      forall p: Path | p != temporary ensures Same(before, at, p) {
        assert p in at <==> p in at - {temporary};
        assert p in before <==> p in before - {temporary};
        if p in at { assert (at - {temporary})[p] == (before - {temporary})[p]; }
      }
    }
  }

  // Where there was no file, removing it again is confined as well.
  lemma RemovalIsConfined(before: Files, at: Files, path: Path, texts: set<string>)
    requires path !in before && Confined(before, at, path, texts)
    ensures Confined(before, at - {path}, path, texts)
  {
    forall p: Path | p.directory != path.directory ensures Same(before, at - {path}, p) {
      assert Same(before, at, p);
    }
  }

  datatype UpdateOutcome = Updated | NotPrepared | RolledBack | RollbackFailed

  // What the readiness loop saw last when it gave up.
  datatype WaitError = NoResponse | UnexpectedHealth(name: string) | NotReadopted(missing: set<string>) | ProbeFailed

  class Machine {
    const disk: Disk
    const plist: Path
    var job: Job
    ghost var trace: seq<Event>

    ghost predicate Valid()
      reads this, disk
    {
      disk.Valid() && Guarded(trace) && (Armed(trace) ==> job.Absent?)
    }

    constructor (disk: Disk, plist: Path, job: Job)
      requires disk.Valid()
      ensures Valid() && this.disk == disk && this.plist == plist && this.job == job && trace == []
    {
      this.disk := disk;
      this.plist := plist;
      this.job := job;
      this.trace := [];
    }

    ghost method Record(e: Event)
      modifies this`trace
      ensures trace == old(trace) + [e] && trace[..|trace| - 1] == old(trace)
    {
      trace := trace + [e];
    }

    // Every state the disk has been in since `since` is confined to path and texts.
    ghost predicate CrashesConfined(since: nat, before: Files, texts: set<string>)
      reads this, disk
    {
      && forall k :: since <= k < |disk.crashes| ==> Confined(before, disk.crashes[k], plist, texts)
    }

    ghost predicate OnDisk(text: string)
      reads this, disk
    {
      plist in disk.files && disk.files[plist] == File(text, true)
    }

    // ---------- the environment ----------

    method ServiceIsLoaded() returns (r: Result<bool, ()>)
      requires Valid()
      modifies this`job, this`trace
      ensures Valid() && old(trace) <= trace
      ensures trace == old(trace) || trace == old(trace) + [Unloaded]
      ensures job == old(job) || (old(job).Leaving? && job.Absent?)
      ensures r == Ok(false) ==> Armed(trace)
      ensures r == Ok(true) ==> job == old(job) && !job.Absent? && trace == old(trace)
    {
      var left: bool := *;
      if job.Leaving? && left {
        job := Absent;
      }
      var inspected: bool := *;
      if !inspected { return Err(()); }
      r := Ok(!job.Absent?);
      if job.Absent? {
        Record(Unloaded);
      }
    }

    method Bootout() returns (ok: bool)
      requires Valid()
      modifies this`job, this`trace
      ensures Valid() && trace == old(trace) + [BootoutAsked(ok)]
      ensures ok ==> !job.Loaded?
      ensures job == old(job) || (!old(job).Absent? && (job.Absent? || job == Leaving(old(job).definition)))
    {
      ok := *;
      var leaves: bool := *;
      var lingers: bool := *;
      if !job.Absent? && (ok || leaves) {
        job := if lingers then Leaving(job.definition) else Absent;
      }
      Record(BootoutAsked(ok));
    }

    // launchd loads whatever the plist holds at that moment; a reported failure may have loaded it too.
    method Bootstrap() returns (ok: bool)
      requires Valid() && Armed(trace)
      modifies this`job, this`trace
      ensures Valid() && trace == old(trace) + [Bootstrapped(ok)]
      ensures ok ==> plist in disk.files && job == Loaded(disk.files[plist].text)
      ensures job.Absent? || (plist in disk.files && job == Loaded(disk.files[plist].text))
    {
      var loads: bool := *;
      ok := *;
      ok := ok && plist in disk.files;
      if ok || (loads && plist in disk.files) {
        job := Loaded(disk.files[plist].text);
      }
      Record(Bootstrapped(ok));
    }

    method HealthOnce(port: nat) returns (r: Result<Health, ()>)
      requires Valid()
      modifies this`trace
      ensures Valid() && old(trace) <= trace && (Armed(old(trace)) ==> Armed(trace))
      ensures r.Ok? ==> trace == old(trace) + [Answered(port, r.value)]
      ensures r.Err? ==> trace == old(trace)
    {
      var h: Health :| true;
      var answered: bool := *;
      if !answered { return Err(()); }
      Record(Answered(port, h));
      r := Ok(h);
    }

    method FetchSessions(port: nat, includeExited: bool) returns (r: Result<seq<Session>, ()>)
      requires Valid()
      modifies this`trace
      ensures Valid() && old(trace) <= trace
      ensures r.Ok? ==> trace == old(trace) + [Listed(port, includeExited, r.value)]
      ensures r.Err? ==> trace == old(trace)
    {
      var sessions: seq<Session> :| true;
      var answered: bool := *;
      if !answered { return Err(()); }
      Record(Listed(port, includeExited, sessions));
      r := Ok(sessions);
    }

    method WritePlist(text: string, ghost texts: set<string>) returns (ok: bool)
      requires Valid() && text in texts
      modifies disk, this`trace
      ensures Valid() && old(disk.crashes) <= disk.crashes && (Armed(old(trace)) ==> Armed(trace))
      ensures trace == if ok then old(trace) + [Wrote(text)] else old(trace)
      ensures ok ==> OnDisk(text)
      ensures !ok ==> Same(old(disk.files), disk.files, plist)
      ensures Confined(old(disk.files), disk.files, plist, texts)
      ensures CrashesConfined(|old(disk.crashes)|, old(disk.files), texts)
    {
      ghost var temporary;
      ok, temporary := disk.WriteAtomic(plist, text);
      ghost var before := old(disk.files);
      forall k | |old(disk.crashes)| <= k < |disk.crashes|
        ensures Confined(before, disk.crashes[k], plist, texts)
      {
        WriteIsConfined(before, disk.crashes[k], plist, text, temporary, texts);
      }
      assert disk.files == disk.crashes[|disk.crashes| - 1];
      if ok {
        Record(Wrote(text));
        assert disk.files == before[plist := File(text, true)];
        WriteIsConfined(before, disk.files, plist, text, temporary, texts);
      } else {
        WriteIsConfined(before, disk.files, plist, text, temporary, texts);
        assert plist in disk.files - {temporary} <==> plist in before - {temporary};
        if plist in before { assert (disk.files - {temporary})[plist] == (before - {temporary})[plist]; }
      }
    }

    // ---------- the waits; a deadline is a poll budget the environment chooses ----------

    method WaitForServiceUnload() returns (ok: bool)
      requires Valid()
      modifies this`job, this`trace
      ensures Valid() && old(trace) <= trace
      ensures ok ==> Armed(trace)
      ensures Undisturbed(trace, |old(trace)|, |trace|)
      ensures job == old(job) || (old(job).Leaving? && job.Absent?)
    {
      var budget: nat :| budget >= 0;
      while budget > 0
        invariant Valid() && old(trace) <= trace && Undisturbed(trace, |old(trace)|, |trace|)
        invariant job == old(job) || (old(job).Leaving? && job.Absent?)
      {
        var r := ServiceIsLoaded();
        if r == Ok(false) { return true; }
        budget := budget - 1;
      }
      ok := false;
    }

    method BootoutIfLoaded() returns (ok: bool)
      requires Valid()
      modifies this`job, this`trace
      ensures Valid() && old(trace) <= trace
      ensures ok ==> Armed(trace)
    {
      var loaded := ServiceIsLoaded();
      if loaded.Err? { return false; }
      if loaded.value {
        var booted := Bootout();
      }
      ok := WaitForServiceUnload();
    }

    method WaitForPortRelease(port: nat) returns (ok: bool)
      requires Valid()
      modifies this`trace
      ensures Valid() && (Armed(old(trace)) ==> Armed(trace))
      ensures trace == if ok then old(trace) + [PortFree(port)] else old(trace)
    {
      var budget: nat :| budget >= 0;
      while budget > 0
        invariant trace == old(trace)
      {
        var busy: bool := *;
        if !busy {
          Record(PortFree(port));
          return true;
        }
        budget := budget - 1;
      }
      ok := false;
    }

    method WaitUntilListening(port: nat) returns (r: Result<(), WaitError>)
      requires Valid()
      modifies this`trace
      ensures Valid() && old(trace) <= trace && (Armed(old(trace)) ==> Armed(trace))
      ensures r.Ok? ==> Listening(trace, port)
    {
      var lastError := NoResponse;
      var budget: nat :| budget >= 0;
      while budget > 0
        invariant Valid() && old(trace) <= trace && (Armed(old(trace)) ==> Armed(trace))
      {
        var health := HealthOnce(port);
        match health {
          case Ok(h) =>
            if IsSessionsd(h) { return Ok(()); }
            lastError := UnexpectedHealth(h.name);
          case Err(_) => lastError := ProbeFailed;
        }
        budget := budget - 1;
      }
      r := Err(lastError);
    }

    // An error that names sessions names exactly those the latest inventory leaves unaccounted.
    ghost predicate NamesTheMissing(e: WaitError, port: nat, baseline: set<string>)
      reads this
    {
      e.NotReadopted? ==>
        && trace != [] && trace[|trace| - 1].Listed? && trace[|trace| - 1].port == port && e.missing != {}
        && forall id :: id in baseline ==> (id in e.missing <==> !Accounted(id, trace[|trace| - 1].sessions))
    }

    // Ok only on one response that accounts for the whole baseline. An error naming sessions names exactly
    // those the last inventory left unaccounted.
    method WaitUntilReady(port: nat, baseline: set<string>) returns (r: Result<(), WaitError>)
      requires Valid() && "" !in baseline
      modifies this`trace
      ensures Valid() && old(trace) <= trace && Undisturbed(trace, |old(trace)|, |trace|)
      ensures r.Ok? ==> Ready(trace, port, baseline) && |old(trace)| + 2 <= |trace|
      ensures r.Err? ==> NamesTheMissing(r.error, port, baseline)
    {
      var lastError := NoResponse;
      var budget: nat :| budget >= 0;
      while budget > 0
        invariant Valid() && old(trace) <= trace && Undisturbed(trace, |old(trace)|, |trace|)
        invariant NamesTheMissing(lastError, port, baseline)
      {
        var health := HealthOnce(port);
        match health {
          case Ok(h) =>
            if IsSessionsd(h) {
              var listed := FetchSessions(port, true);
              match listed {
                case Ok(sessions) =>
                  var missing := NotReady(baseline, CurrentReadiness(sessions));
                  NothingMissingMeansAccounted(baseline, sessions);
                  if missing == {} { return Ok(()); }
                  lastError := NotReadopted(missing);
                case Err(_) => lastError := ProbeFailed;
              }
            } else {
              lastError := UnexpectedHealth(h.name);
            }
          case Err(_) => lastError := ProbeFailed;
        }
        budget := budget - 1;
      }
      r := Err(lastError);
    }

    // The sessions that must survive: those one inventory, taken from a ready daemon, lists as live.
    method CaptureBaseline(port: nat) returns (r: Result<set<string>, ()>)
      requires Valid()
      modifies this`trace
      ensures Valid() && old(trace) <= trace && Undisturbed(trace, |old(trace)|, |trace|)
      ensures r.Ok? ==> "" !in r.value && Captured(trace, |old(trace)|, port, r.value)
    {
      var ready := WaitUntilReady(port, {});
      if ready.Err? { return Err(()); }
      var listed := FetchSessions(port, false);
      match listed {
        case Ok(sessions) =>
          r := Ok(LiveSessionIds(sessions));
          assert CapturedAt(trace, |trace| - 3, port, r.value);
        case Err(_) => r := Err(());
      }
    }

    // ---------- the transaction ----------

    // What came right after `before` is the write and then the start.
    ghost predicate WrittenAndStarted(before: seq<Event>, text: string)
      reads this
    {
      && |before| + 1 < |trace| && trace[|before|] == Wrote(text) && trace[|before| + 1] == Bootstrapped(true)
      && Undisturbed(trace, |before| + 2, |trace|)
    }

    // Write, bootstrap, wait: the second half of an update and of a rollback alike.
    method Activate(port: nat, text: string, baseline: set<string>, ghost texts: set<string>) returns (ok: bool)
      requires Valid() && Armed(trace) && text in texts && "" !in baseline
      modifies this`job, this`trace, disk
      ensures Valid() && old(trace) <= trace && old(disk.crashes) <= disk.crashes
      ensures ok ==> WrittenAndStarted(old(trace), text)
      ensures forall j :: |old(trace)| < j < |trace| ==> !trace[j].Wrote?
      ensures ok ==> OnDisk(text) && job == Loaded(text) && Ready(trace, port, baseline)
      ensures Confined(old(disk.files), disk.files, plist, texts)
      ensures CrashesConfined(|old(disk.crashes)|, old(disk.files), texts)
    {
      ok := WritePlist(text, texts);
      if !ok { return; }
      ok := Bootstrap();
      if !ok { return; }
      var ready := WaitUntilReady(port, baseline);
      ok := ready.Ok?;
    }

    method StopService(port: nat) returns (ok: bool)
      requires Valid()
      modifies this`job, this`trace
      ensures Valid() && old(trace) <= trace
      ensures ok ==> Armed(trace) && |trace| > |old(trace)| && trace[|trace| - 1] == PortFree(port)
      ensures forall j :: |old(trace)| <= j < |trace| ==> !trace[j].Wrote?
    {
      ok := Bootout();
      if !ok { return; }
      ok := WaitForServiceUnload();
      if !ok { return; }
      ok := WaitForPortRelease(port);
    }

    // Stop what runs, then write and start `text` in its place: whatever fails, the definition is not touched before
    // the port was seen free.
    method Replace(oldPort: nat, newPort: nat, text: string, baseline: set<string>, ghost texts: set<string>)
      returns (ok: bool)
      requires Valid() && text in texts && "" !in baseline
      modifies this`job, this`trace, disk
      ensures Valid() && old(trace) <= trace && old(disk.crashes) <= disk.crashes
      ensures ok ==> OnDisk(text) && job == Loaded(text) && Ready(trace, newPort, baseline)
      ensures ok ==> StartedOnFreePort(trace, |old(trace)|, oldPort, text)
      ensures WritesFollowRelease(trace, |old(trace)|, oldPort)
      ensures Confined(old(disk.files), disk.files, plist, texts)
      ensures CrashesConfined(|old(disk.crashes)|, old(disk.files), texts)
    {
      ok := StopService(oldPort);
      if !ok { return; }
      ghost var k := |trace|;
      ok := Activate(newPort, text, baseline, texts);
      assert ok ==> FreeWrittenStarted(trace, k - 1, oldPort, text);
    }

    // Stop whatever a failed replacement left behind, then start the old definition again.
    method Restore(failedPort: nat, oldPort: nat, text: string, baseline: set<string>, waitForPort: bool, ghost texts: set<string>)
      returns (ok: bool)
      requires Valid() && text in texts && "" !in baseline
      modifies this`job, this`trace, disk
      ensures Valid() && old(trace) <= trace && old(disk.crashes) <= disk.crashes
      ensures ok ==> OnDisk(text) && job == Loaded(text) && Ready(trace, oldPort, baseline)
      ensures ok && waitForPort ==> StartedOnFreePort(trace, |old(trace)|, failedPort, text)
      ensures Confined(old(disk.files), disk.files, plist, texts)
      ensures CrashesConfined(|old(disk.crashes)|, old(disk.files), texts)
    {
      ok := BootoutIfLoaded();
      if ok && waitForPort {
        ok := WaitForPortRelease(failedPort);
      }
      if !ok { return; }
      ghost var k := |trace|;
      ok := Activate(oldPort, text, baseline, texts);
      assert ok && waitForPort ==> FreeWrittenStarted(trace, k - 1, failedPort, text);
    }

    method UpdateLoadedService(port: nat, oldPlist: string, newPlist: string, baseline: set<string>)
      returns (r: UpdateOutcome)
      requires Valid() && "" !in baseline
      modifies this`job, this`trace, disk
      ensures Valid() && old(trace) <= trace && old(disk.crashes) <= disk.crashes
      ensures r.Updated? ==> OnDisk(newPlist) && job == Loaded(newPlist) && Ready(trace, port, baseline)
      ensures r.Updated? ==> StartedOnFreePort(trace, |old(trace)|, port, newPlist)
      ensures r.RolledBack? ==> StartedOnFreePort(trace, |old(trace)|, port, oldPlist)
      ensures r.RolledBack? ==> OnDisk(oldPlist) && job == Loaded(oldPlist) && Ready(trace, port, baseline)
      ensures r.NotPrepared? ==> job == old(job) && trace == old(trace) && disk.files == old(disk.files)
      ensures Confined(old(disk.files), disk.files, plist, {oldPlist, newPlist})
      ensures CrashesConfined(|old(disk.crashes)|, old(disk.files), {oldPlist, newPlist})
    {
      r := MigrateLoadedService(port, port, oldPlist, newPlist, baseline, true);
    }

    // `waitForPort`: an update in place waits for its own port again before restoring; a port change does not,
    // because a foreign process on the requested port must not prevent returning to the old one.
    method MigrateLoadedService(oldPort: nat, newPort: nat, oldPlist: string, newPlist: string,
                                baseline: set<string>, waitForPort: bool)
      returns (r: UpdateOutcome)
      requires Valid() && "" !in baseline
      modifies this`job, this`trace, disk
      ensures Valid() && old(trace) <= trace && old(disk.crashes) <= disk.crashes
      ensures r.Updated? ==> OnDisk(newPlist) && job == Loaded(newPlist) && Ready(trace, newPort, baseline)
      ensures r.Updated? ==> StartedOnFreePort(trace, |old(trace)|, oldPort, newPlist)
      ensures r.RolledBack? && waitForPort ==> StartedOnFreePort(trace, |old(trace)|, newPort, oldPlist)
      ensures r.RolledBack? ==> OnDisk(oldPlist) && job == Loaded(oldPlist) && Ready(trace, oldPort, baseline)
      ensures r.NotPrepared? ==> job == old(job) && trace == old(trace) && disk.files == old(disk.files)
      ensures Confined(old(disk.files), disk.files, plist, {oldPlist, newPlist})
      ensures CrashesConfined(|old(disk.crashes)|, old(disk.files), {oldPlist, newPlist})
    {
      ghost var texts := {oldPlist, newPlist};
      var prepared: bool := *;
      if !prepared { return NotPrepared; }

      var ok := Replace(oldPort, newPort, newPlist, baseline, texts);
      if ok { return Updated; }
      ok := Restore(newPort, oldPort, oldPlist, baseline, waitForPort, texts);
      r := if ok then RolledBack else RollbackFailed;
    }
  }
}
