/** windows_runtime.rs: installing the logon supervisor, handing it over, and moving its port.

    The host is the registered logon value, the supervisor that was last started and the directory of the pinned
    runner. Every call into Windows may fail and the daemon may answer anything; runners come and go throughout.
    `writes` records each registered value together with the pinned bytes at that moment. */
module WindowsRuntime {
  import opened Wrappers
  import opened Supervisor
  import opened WindowsRunner

  datatype Event =
    | Answered(port: nat, health: Health)
    | Listed(port: nat, ids: set<string>)
    | Stop(honoured: bool)   // a stop was requested
    | PortFree(port: nat)
    | Started

  datatype Health = Health(version: string, discovering: bool)

  datatype Write = Write(value: Option<string>, pinned: Option<string>)

  datatype Handoff =
    | HandedOff(preserved: nat)
    | Refused       // before anything was asked to stop
    | NotStopped    // the stop or the port release failed: nothing was written, but the daemon may be gone
    | Restored
    | NotRestored

  datatype InstallError =
    | Unprepared
    | RunnerMissing(activation: Activation)
    | InvalidDefinition
    | Unhealthy
    | NoRollbackDefinition
    | HandoffFailed(handoff: Handoff)
    | NotWritten
    | StartFailed(restored: bool)
    | RunnerNotActivated(activation: Activation)

  datatype Intent = Requested | Rollback

  predicate VersionsMatch(daemon: string, manifest: string) {
    daemon == manifest || daemon + "-bin." <= manifest
  }

  // The trace ends with a matching daemon and, from it, one inventory that lists the whole baseline.
  ghost predicate Ready(trace: seq<Event>, port: nat, version: string, baseline: set<string>) {
    && |trace| >= 2
    && trace[|trace| - 2].Answered? && trace[|trace| - 2].port == port && VersionsMatch(trace[|trace| - 2].health.version, version)
    && trace[|trace| - 1].Listed? && trace[|trace| - 1].port == port && baseline <= trace[|trace| - 1].ids
  }

  ghost predicate Listening(trace: seq<Event>, port: nat, version: string) {
    && trace != [] && trace[|trace| - 1].Answered? && trace[|trace| - 1].port == port
    && VersionsMatch(trace[|trace| - 1].health.version, version)
  }

  // The last start since `since` came after a stop and then a look at the port that found it free.
  ghost predicate StartedAfterStop(trace: seq<Event>, since: nat, port: nat) {
    exists k: nat, f: nat :: since <= k && StoppedFreedStarted(trace, k, f, port)
  }

  // A refused stop counts when the port showed at once that nothing was left to stop.
  ghost predicate StoppedFreedStarted(trace: seq<Event>, k: nat, f: nat, port: nat) {
    && k < f && f + 1 < |trace| && trace[k].Stop? && (trace[k].honoured || k + 1 < f)
    && (forall j :: k < j <= f ==> trace[j] == PortFree(port))
    && trace[f + 1].Started? && NoStart(trace, f + 2, |trace|)
  }

  ghost predicate NoStart(trace: seq<Event>, from: nat, to: nat) {
    forall j :: from <= j < to && j < |trace| ==> !trace[j].Started?
  }

  // Nothing was asked to stop and nothing was started.
  ghost predicate Undisturbed(trace: seq<Event>, from: nat, to: nat) {
    forall j :: from <= j < to && j < |trace| ==> !trace[j].Stop? && !trace[j].Started?
  }

  // `baseline` is what the daemon on the port listed, after `since` and before anything was stopped or started.
  ghost predicate Captured(trace: seq<Event>, since: nat, port: nat, baseline: set<string>) {
    exists k: nat :: since <= k < |trace| && trace[k] == Listed(port, baseline) && Undisturbed(trace, since, k)
  }

  // The daemon on the port answered with that version, before anything was stopped or started.
  ghost predicate SeenRunning(trace: seq<Event>, since: nat, port: nat, version: string, settled: bool) {
    exists k: nat :: since <= k < |trace| && AnsweredWith(trace[k], port, version, settled) && Undisturbed(trace, since, k)
  }

  ghost predicate AnsweredWith(e: Event, port: nat, version: string, settled: bool) {
    e.Answered? && e.port == port && e.health.version == version && (settled ==> !e.health.discovering)
  }

  lemma CapturedStays(a: seq<Event>, b: seq<Event>, since: nat, port: nat, baseline: set<string>)
    requires a <= b && Captured(a, since, port, baseline)
    ensures Captured(b, since, port, baseline)
  {
    var k: nat :| since <= k < |a| && a[k] == Listed(port, baseline) && Undisturbed(a, since, k);
    assert b[k] == a[k] && Undisturbed(b, since, k);
  }

  lemma SeenRunningStays(a: seq<Event>, b: seq<Event>, since: nat, port: nat, version: string, settled: bool)
    requires a <= b && SeenRunning(a, since, port, version, settled)
    ensures SeenRunning(b, since, port, version, settled)
  {
    var k: nat :| since <= k < |a| && AnsweredWith(a[k], port, version, settled) && Undisturbed(a, since, k);
    assert b[k] == a[k] && Undisturbed(b, since, k);
  }

  // A handoff that begins later, with nothing stopped or started in between, captures for the whole operation.
  lemma CapturedSinceEarlier(trace: seq<Event>, since: nat, later: nat, port: nat, baseline: set<string>)
    requires since <= later && Undisturbed(trace, since, later) && Captured(trace, later, port, baseline)
    ensures Captured(trace, since, port, baseline)
  {
    var k: nat :| later <= k < |trace| && trace[k] == Listed(port, baseline) && Undisturbed(trace, later, k);
    assert Undisturbed(trace, since, k);
  }

  // A probe came first: trace[since] is its answer and the handoff began right after it.
  lemma SinceTheProbe(trace: seq<Event>, since: nat, from: nat, to: nat, health: Health, settled: bool, baseline: set<string>)
    requires since < |trace| && trace[since] == Answered(from, health) && (settled ==> !health.discovering)
    requires Captured(trace, since + 1, from, baseline)
    ensures Captured(trace, since, from, baseline) && SeenRunning(trace, since, from, health.version, settled)
    ensures StartedAfterStop(trace, since + 1, from) ==> StartedAfterStop(trace, since, from)
    ensures StartedAfterStop(trace, since + 1, to) ==> StartedAfterStop(trace, since, to)
  {
    CapturedSinceEarlier(trace, since, since + 1, from, baseline);
    assert AnsweredWith(trace[since], from, health.version, settled) && Undisturbed(trace, since, since);
  }

  // A handoff came to a stop request at least.
  predicate Handed(r: Result<Option<nat>, InstallError>) {
    if r.Ok? then r.value.Some? else r.error.HandoffFailed? && !r.error.handoff.Refused?
  }

  // What a replacement of the running supervisor guarantees for live sessions. The baseline is what the old daemon
  // listed before anything was stopped, the old version what it answered; success has every one of them listed
  // by the new daemon, and a handoff reported restored has every one listed by the old version again.
  ghost predicate SessionsKept(trace: seq<Event>, since: nat, r: Result<Option<nat>, InstallError>, from: nat, to: nat,
                               version: string, baseline: set<string>, oldVersion: string, settled: bool) {
    && (Handed(r) ==>
          Captured(trace, since, from, baseline) && SeenRunning(trace, since, from, oldVersion, settled))
    && (r.Ok? && r.value.Some? ==>
          StartedAfterStop(trace, since, from) && Ready(trace, to, version, baseline) && r.value.value == |baseline|)
    && (r == Err(HandoffFailed(Restored)) ==>
          StartedAfterStop(trace, since, to) && Ready(trace, from, oldVersion, baseline))
  }

  // ---------- what the environment answers first; every later answer is free ----------

  datatype StopAnswer = Honoured | RefusedButGone | RefusedAndRunning

  type Probed = Result<Option<Health>, ()>

  datatype Answers = Answers(
    prepared: bool,                // manifest and directories
    staged: bool,                  // the versioned runtime
    files: set<string>,            // the versioned files that are there
    entryReadable: bool,
    portAvailable: bool,
    probe: Probed,                 // before anything is decided
    listening: Probed,             // while waiting for a daemon to listen
    listed: Result<set<string>, ()>,
    stop: StopAnswer,
    released: bool,
    written: bool,
    started: bool,
    ready: Probed,                 // while waiting for the new daemon
    relisted: Result<set<string>, ()>,
    created: bool)                 // the directory for a new pinned runner

  predicate Healthy(p: Probed, version: string) { p.Ok? && p.value.Some? && VersionsMatch(p.value.value.version, version) }

  // The new supervisor comes up at once and lists the whole baseline.
  predicate ComesUp(a: Answers, version: string, baseline: set<string>) {
    a.written && a.started && Healthy(a.ready, version) && a.relisted.Ok? && baseline <= a.relisted.value - {""}
  }

  // Everything before the last step went well: that step decides, and it cannot succeed unless it is `possible`.
  predicate EndsWithActivation<T>(r: Result<T, InstallError>, possible: bool) {
    if r.Ok? then possible else r.error.RunnerNotActivated?
  }

  class Host {
    const root: string
    const runners: RunnerRoot
    var registry: Option<string>
    var running: Option<Definition>
    ghost var writes: seq<Write>
    ghost var trace: seq<Event>

    ghost predicate Valid()
      reads runners
    {
      runners.Valid()
    }

    constructor (root: string, runners: RunnerRoot, registry: Option<string>)
      requires runners.Valid()
      ensures Valid() && this.root == root && this.runners == runners && this.registry == registry
    {
      this.root, this.runners, this.registry := root, runners, registry;
      this.running, this.writes, this.trace := None, [], [];
    }

    // A runner the definition may name: not empty, or just verified against the manifest.
    ghost predicate Usable(pinned: Option<string>, digest: string) {
      pinned.Some? && (pinned.value != "" || runners.Matches(pinned.value, digest))
    }

    // Since `since`, only the entry value and the new command line were registered, the new one only over a usable runner.
    ghost predicate OnlyEntryOrNew(since: nat, entry: Option<string>, next: string, digest: string)
      reads this`writes
    {
      forall k :: since <= k < |writes| ==>
        writes[k].value == entry || (writes[k].value == Some(next) && Usable(writes[k].pinned, digest))
    }

    // The pinned runner is the same file with the same bytes.
    twostate predicate RunnerKept()
      reads this, runners
    {
      runners.entries == old(runners.entries) && runners.content == old(runners.content)
    }

    // ---------- the environment ----------

    method ReadLogonSupervisor(readable: bool) returns (r: Result<Option<string>, ()>)
      ensures r == if readable then Ok(registry) else Err(())
    {
      r := if readable then Ok(registry) else Err(());
    }

    method WriteLogonSupervisor(value: Option<string>, written: bool) returns (ok: bool)
      requires Valid()
      modifies this`registry, this`writes
      ensures ok == written
      ensures if ok then registry == value && writes == old(writes) + [Write(value, runners.PinnedBytes())]
              else registry == old(registry) && writes == old(writes)
    {
      ok := written;
      if ok {
        registry := value;
        writes := writes + [Write(value, runners.PinnedBytes())];
      }
    }

    method Probe(port: nat, answer: Probed) returns (r: Probed)
      modifies this`trace
      ensures r == answer
      ensures r.Ok? && r.value.Some? ==> trace == old(trace) + [Answered(port, r.value.value)]
      ensures !(r.Ok? && r.value.Some?) ==> trace == old(trace)
    {
      r := answer;
      if r.Ok? && r.value.Some? {
        trace := trace + [Answered(port, r.value.value)];
      }
    }

    method FetchLiveSessions(port: nat, answer: Result<set<string>, ()>) returns (r: Result<set<string>, ()>)
      modifies this`trace
      ensures r == if answer.Ok? then Ok(answer.value - {""}) else answer
      ensures r.Ok? ==> trace == old(trace) + [Listed(port, r.value)] && "" !in r.value
      ensures r.Err? ==> trace == old(trace)
    {
      r := answer;
      if r.Ok? {
        r := Ok(r.value - {""});
        trace := trace + [Listed(port, r.value)];
      }
    }

    method StartSupervisor(d: Definition, started: bool) returns (ok: bool)
      modifies this`running, this`trace
      ensures ok == started
      ensures running == if ok then Some(d) else old(running)
      ensures trace == if ok then old(trace) + [Started] else old(trace)
    {
      ok := started;
      if ok {
        running := Some(d);
        trace := trace + [Started];
      }
    }

    // A refused stop may still have stopped it.
    method StopSupervisor(answer: StopAnswer) returns (ok: bool)
      modifies this`running, this`trace
      ensures ok == answer.Honoured?
      ensures running == if answer.RefusedAndRunning? then old(running) else None
      ensures trace == old(trace) + [Stop(ok)]
    {
      ok := answer.Honoured?;
      if !answer.RefusedAndRunning? { running := None; }
      trace := trace + [Stop(ok)];
    }

    method StopSupervisorIfPresent(port: nat) returns (ok: bool)
      modifies this`running, this`trace
      ensures running == None || running == old(running)
      ensures ok ==> trace == old(trace) + [Stop(true)] || trace == old(trace) + [Stop(false), PortFree(port)]
      ensures !ok ==> trace == old(trace) + [Stop(false)]
    {
      var answer: StopAnswer :| true;
      ok := StopSupervisor(answer);
      if !ok {
        var available: bool := *;
        ok := available;
        if ok { trace := trace + [PortFree(port)]; }
      }
    }

    method WaitForPortRelease(port: nat, released: bool) returns (ok: bool)
      modifies this`trace
      ensures released ==> ok
      ensures trace == if ok then old(trace) + [PortFree(port)] else old(trace)
    {
      var budget: nat :| budget >= 0;
      var available := released;
      while budget > 0 || released
        invariant trace == old(trace) && (released ==> available)
        decreases budget
      {
        if available {
          trace := trace + [PortFree(port)];
          return true;
        }
        budget := budget - 1;
        available := *;
      }
      ok := false;
    }

    method WaitForListening(port: nat, version: string, first: Probed) returns (ok: bool)
      modifies this`trace
      ensures Healthy(first, version) ==> ok
      ensures old(trace) <= trace && Undisturbed(trace, |old(trace)|, |trace|)
      ensures ok ==> Listening(trace, port, version)
    {
      var budget: nat :| budget >= 0;
      var answer := first;
      while true
        invariant old(trace) <= trace && Undisturbed(trace, |old(trace)|, |trace|)
        invariant Healthy(first, version) ==> answer == first
        decreases budget
      {
        var health := Probe(port, answer);
        if health.Ok? && health.value.Some? {
          return VersionsMatch(health.value.value.version, version);
        }
        if budget == 0 { return false; }
        budget := budget - 1;
        answer :| true;
      }
    }

    // A daemon of the wrong version ends the wait at once; otherwise one inventory must list the whole baseline.
    method WaitForReady(port: nat, version: string, baseline: set<string>, first: Probed, firstListed: Result<set<string>, ()>)
      returns (ok: bool)
      modifies this`trace
      ensures old(trace) <= trace && Undisturbed(trace, |old(trace)|, |trace|)
      ensures ok ==> Ready(trace, port, version, baseline)
      ensures Healthy(first, version) && firstListed.Ok? && baseline <= firstListed.value - {""} ==> ok
    {
      var budget: nat :| budget >= 0;
      var answer, inventory := first, firstListed;
      while true
        invariant old(trace) <= trace && Undisturbed(trace, |old(trace)|, |trace|)
        invariant Healthy(first, version) && firstListed.Ok? && baseline <= firstListed.value - {""} ==>
                    answer == first && inventory == firstListed
        decreases budget
      {
        var health := Probe(port, answer);
        if health.Ok? && health.value.Some? {
          if !VersionsMatch(health.value.value.version, version) { return false; }
          var listed := FetchLiveSessions(port, inventory);
          if listed.Ok? {
            var missing := baseline - listed.value;
            assert forall id :: id in baseline && id !in listed.value ==> id in missing;
            if missing == {} { return true; }
            assert exists id :: id in missing;
          }
        }
        if budget == 0 { return false; }
        budget := budget - 1;
        answer :| true;
        inventory :| true;
      }
    }

    // The definition's files are there and it names one runtime; `files` are the versioned files.
    predicate Accepts(d: Definition, files: set<string>)
      reads runners
    {
      var pinned := PINNED in runners.entries;
      ValidDefinition(d, root, path => if path == StableRunnerPath(root) then pinned else path in files)
    }

    // ---------- handoff ----------

    method HandoffIfSettled(entry: string, next: Definition, currentPort: nat, requestedPort: nat,
                            health: Health, requestedVersion: string, digest: string, answers: Answers)
      returns (r: Handoff, ghost baseline: set<string>)
      requires Valid() && Usable(runners.PinnedBytes(), digest)
      modifies this
      ensures old(writes) <= writes
      ensures health.discovering ==> r.Refused? && trace == old(trace)
      ensures !r.Refused? ==> Captured(trace, |old(trace)|, currentPort, baseline)
      ensures !r.Refused? ==> Parse(entry).Ok? && Parse(entry).value.port == currentPort
      ensures HandoffKeeps(r, entry, CommandLine(next), next, digest, currentPort, requestedPort, health.version, requestedVersion, baseline)
      ensures !health.discovering && old(Proceeds(entry, currentPort, requestedPort, answers)) ==>
                Follows(r, requestedVersion, answers)
    {
      baseline := {};
      if health.discovering { return Refused, baseline; }
      r, baseline := HandoffSettled(entry, next, currentPort, requestedPort, health.version, requestedVersion, digest, answers);
    }

    // The answers let a handoff come to the stop request.
    predicate Proceeds(entry: string, currentPort: nat, requestedPort: nat, answers: Answers)
      reads runners
    {
      var previous := Parse(entry);
      && previous.Ok? && previous.value.port == currentPort && Accepts(previous.value, answers.files)
      && (requestedPort == currentPort || answers.portAvailable) && answers.listed.Ok?
    }

    // Two outcomes the answers decide: a refused stop ends the handoff, also when it left nothing running, and a
    // supervisor that comes up completes it.
    ghost predicate Follows(r: Handoff, newVersion: string, answers: Answers)
      reads this
    {
      && (!answers.stop.Honoured? ==> r.NotStopped?)
      && (answers.stop.RefusedButGone? ==> running == None)
      && ((answers.stop.Honoured? && answers.released && answers.listed.Ok?
           && ComesUp(answers, newVersion, answers.listed.value - {""})) ==> r.HandedOff?)
    }

    // What each outcome of a handoff guarantees.
    twostate predicate HandoffKeeps(r: Handoff, entry: string, nextLine: string, next: Definition, digest: string,
                                    currentPort: nat, requestedPort: nat, oldVersion: string, newVersion: string,
                                    baseline: set<string>)
      reads this
    {
      && old(trace) <= trace
      && (r.HandedOff? ==>
            && StartedAfterStop(trace, |old(trace)|, currentPort)
            && registry == Some(nextLine) && running == Some(next)
            && Ready(trace, requestedPort, newVersion, baseline) && r.preserved == |baseline|)
      && (r.Restored? ==>
            && StartedAfterStop(trace, |old(trace)|, requestedPort)
            && registry == Some(entry) && Ready(trace, currentPort, oldVersion, baseline))
      && (r.Refused? ==>
            registry == old(registry) && running == old(running) && writes == old(writes)
            && Undisturbed(trace, |old(trace)|, |trace|))
      && (r.NotStopped? ==>
            && registry == old(registry) && writes == old(writes) && (running == old(running) || running == None)
            // the stop was refused, or nothing after it saw the port free
            && |trace| > |old(trace)| && trace[|trace| - 1].Stop?)
      && (registry == old(registry) || registry == Some(entry) || registry == Some(nextLine))
      && OnlyEntryOrNew(|old(writes)|, Some(entry), nextLine, digest)
    }

    method HandoffSettled(entry: string, next: Definition, currentPort: nat, requestedPort: nat,
                          oldVersion: string, newVersion: string, digest: string, answers: Answers)
      returns (r: Handoff, ghost baseline: set<string>)
      requires Valid() && Usable(runners.PinnedBytes(), digest)
      modifies this
      ensures old(writes) <= writes
      ensures HandoffKeeps(r, entry, CommandLine(next), next, digest, currentPort, requestedPort, oldVersion, newVersion, baseline)
      ensures !r.Refused? ==> Parse(entry).Ok? && Parse(entry).value.port == currentPort
      ensures r.Restored? ==> running == Some(Parse(entry).value)
      ensures !r.Refused? ==> Captured(trace, |old(trace)|, currentPort, baseline)
      ensures old(Proceeds(entry, currentPort, requestedPort, answers)) ==> Follows(r, newVersion, answers)
    {
      baseline := {};
      var parsed := Parse(entry);
      if parsed.Err? { return Refused, baseline; }
      var previous := parsed.value;
      if !Accepts(previous, answers.files) || previous.port != currentPort { return Refused, baseline; }
      if requestedPort != currentPort && !answers.portAvailable { return Refused, baseline; }
      var listed := FetchLiveSessions(currentPort, answers.listed);
      if listed.Err? { return Refused, baseline; }
      baseline := listed.value;
      assert trace[|old(trace)|] == Listed(currentPort, baseline);
      ghost var taken := trace;
      assert Captured(taken, |old(trace)|, currentPort, baseline);
      r := TakeOver(entry, previous, CommandLine(next), next, currentPort, requestedPort, oldVersion, newVersion, listed.value, digest, answers);
      CapturedStays(taken, trace, |old(trace)|, currentPort, baseline);
    }

    // Stop the old supervisor, bring up the new one, and bring the old one back if that fails.
    method TakeOver(entry: string, previous: Definition, nextLine: string, next: Definition, currentPort: nat,
                    requestedPort: nat, oldVersion: string, newVersion: string, baseline: set<string>, digest: string,
                    answers: Answers)
      returns (r: Handoff)
      requires Valid() && Usable(runners.PinnedBytes(), digest)
      modifies this
      ensures !answers.stop.Honoured? ==> r.NotStopped?
      ensures answers.stop.RefusedButGone? ==> running == None
      ensures answers.stop.Honoured? && answers.released && ComesUp(answers, newVersion, baseline) ==> r.HandedOff?
      ensures old(writes) <= writes && !r.Refused?
      ensures HandoffKeeps(r, entry, nextLine, next, digest, currentPort, requestedPort, oldVersion, newVersion, baseline)
      ensures r.Restored? ==> running == Some(previous)
    {
      var stopped := StopAndWait(currentPort, answers);
      if !stopped { return NotStopped; }
      ghost var f := |trace| - 1;
      ghost var already := |writes|;
      var ok := RegisterAndStart(nextLine, next, requestedPort, newVersion, baseline, answers);
      assert OnlyEntryOrNew(already, Some(entry), nextLine, digest);
      if ok {
        assert StoppedFreedStarted(trace, |old(trace)|, f, currentPort);
        return HandedOff(|baseline|);
      }
      ok := BringBack(entry, previous, requestedPort, currentPort, oldVersion, baseline);
      r := if ok then Restored else NotRestored;
    }

    method StopAndWait(port: nat, answers: Answers) returns (ok: bool)
      modifies this`running, this`trace
      ensures answers.stop.Honoured? && answers.released ==> ok
      ensures ok ==> answers.stop.Honoured? && running == None && trace == old(trace) + [Stop(true), PortFree(port)]
      ensures !ok ==> trace == old(trace) + [Stop(answers.stop.Honoured?)] && (running == None || running == old(running))
      ensures answers.stop.RefusedButGone? ==> running == None
    {
      ok := StopSupervisor(answers.stop);
      if ok { ok := WaitForPortRelease(port, answers.released); }
    }

    // Stop whatever a failed handoff left on the requested port and start the old supervisor again.
    method BringBack(entry: string, previous: Definition, requestedPort: nat, currentPort: nat, oldVersion: string, baseline: set<string>)
      returns (ok: bool)
      requires Valid()
      modifies this
      ensures old(trace) <= trace
      ensures ok ==> StartedAfterStop(trace, |old(trace)|, requestedPort)
      ensures ok ==> registry == Some(entry) && running == Some(previous) && Ready(trace, currentPort, oldVersion, baseline)
      ensures registry == old(registry) || registry == Some(entry)
      ensures writes == old(writes) || writes == old(writes) + [Write(Some(entry), old(runners.PinnedBytes()))]
    {
      ok := StopSupervisorIfPresent(requestedPort);
      if !ok { return; }
      var later: Answers :| true;
      ok := WaitForPortRelease(requestedPort, later.released);
      if !ok { return; }
      ghost var f := |trace| - 1;
      ok := RegisterAndStart(entry, previous, currentPort, oldVersion, baseline, later);
      assert ok ==> StoppedFreedStarted(trace, |old(trace)|, f, requestedPort);
    }

    // Register a command line, start its supervisor and wait for the baseline.
    method RegisterAndStart(value: string, d: Definition, port: nat, version: string, baseline: set<string>, answers: Answers)
      returns (ok: bool)
      requires Valid()
      modifies this
      ensures ComesUp(answers, version, baseline) ==> ok
      ensures old(trace) <= trace
      ensures ok ==> |trace| > |old(trace)| && trace[|old(trace)|].Started? && NoStart(trace, |old(trace)| + 1, |trace|)
      ensures ok ==> registry == Some(value) && running == Some(d) && Ready(trace, port, version, baseline)
      ensures registry == old(registry) || registry == Some(value)
      ensures writes == old(writes) || writes == old(writes) + [Write(Some(value), old(runners.PinnedBytes()))]
    {
      ok := WriteLogonSupervisor(Some(value), answers.written);
      if !ok { return; }
      ok := StartSupervisor(d, answers.started);
      if !ok { return; }
      ok := WaitForReady(port, version, baseline, answers.ready, answers.relisted);
    }

    // ---------- install ----------

    // Something must be at the pinned path before a definition names it; a usable runner is left alone.
    method EnsureRunner(digest: string) returns (r: Option<InstallError>)
      requires Valid()
      modifies runners
      ensures Valid()
      ensures r.None? ==> Usable(runners.PinnedBytes(), digest)
      ensures old(StableRunnerIsPresent(runners.PinnedBytes())) ==> r.None? && RunnerKept()
      ensures r.Some? ==> r.value.RunnerMissing?
    {
      r := None;
      if !StableRunnerIsPresent(runners.PinnedBytes()) {
        var created: bool := *;
        var a := runners.ActivateStableRunner(digest, true, created);
        if !a.Activated? { r := Some(RunnerMissing(a)); }
      }
    }

    // No daemon answers: register, start and wait, or put the entry value back.
    method ColdStart(entry: Option<string>, d: Definition, port: nat, version: string, digest: string, answers: Answers)
      returns (r: Option<InstallError>)
      requires Valid() && Usable(runners.PinnedBytes(), digest) && registry == entry
      modifies this
      ensures old(writes) <= writes && old(trace) <= trace
      ensures r.None? ==> registry == Some(CommandLine(d)) && running == Some(d) && Listening(trace, port, version)
      ensures r == Some(StartFailed(true)) ==> registry == entry
      ensures r.Some? ==> r.value.NotWritten? || r.value.StartFailed?
      ensures r == Some(NotWritten) ==>
                registry == entry && writes == old(writes) && running == old(running) && trace == old(trace)
      ensures registry == entry || registry == Some(CommandLine(d))
      ensures OnlyEntryOrNew(|old(writes)|, entry, CommandLine(d), digest)
    {
      var ok := WriteLogonSupervisor(Some(CommandLine(d)), answers.written);
      if !ok { return Some(NotWritten); }
      ok := StartSupervisor(d, answers.started);
      if ok {
        ok := WaitForListening(port, version, answers.listening);
      }
      if ok { return None; }
      var restored := TakeStartBack(entry, port);
      r := Some(StartFailed(restored));
    }

    method TakeStartBack(entry: Option<string>, port: nat) returns (restored: bool)
      requires Valid()
      modifies this
      ensures old(trace) <= trace
      ensures registry == if restored then entry else old(registry)
      ensures writes == if restored then old(writes) + [Write(entry, old(runners.PinnedBytes()))] else old(writes)
    {
      var stopped := StopSupervisorIfPresent(port);
      var written: bool := *;
      restored := WriteLogonSupervisor(entry, written);
    }

    // Nothing was registered, stopped or started.
    twostate predicate Untouched()
      reads this
    {
      registry == old(registry) && running == old(running) && old(trace) <= trace && Undisturbed(trace, |old(trace)|, |trace|)
    }

    // A daemon of the wanted version answered: wait until it listens and write the definition.
    method Refresh(d: Definition, port: nat, version: string, digest: string, answers: Answers)
      returns (r: Result<Option<nat>, InstallError>)
      requires Valid() && Usable(runners.PinnedBytes(), digest)
      modifies this`registry, this`writes, this`trace
      ensures r.Ok? ==> r == Ok(None) && registry == Some(CommandLine(d)) && Listening(trace, port, version)
      ensures old(trace) <= trace && Undisturbed(trace, |old(trace)|, |trace|)
      ensures r.Err? ==> registry == old(registry) && (r.error.Unhealthy? || r.error.NotWritten?)
      ensures Healthy(answers.listening, version) && answers.written ==> r.Ok?
      ensures writes == old(writes) || writes == old(writes) + [Write(Some(CommandLine(d)), runners.PinnedBytes())]
    {
      var ok := WaitForListening(port, version, answers.listening);
      if !ok { return Err(Unhealthy); }
      ok := WriteLogonSupervisor(Some(CommandLine(d)), answers.written);
      r := if ok then Ok(None) else Err(NotWritten);
    }

    // Nothing answered: start the daemon, unless another definition is registered, whose host nothing shows to be idle.
    method StartUnlessOther(entry: Option<string>, d: Definition, port: nat, version: string, digest: string, answers: Answers)
      returns (r: Result<Option<nat>, InstallError>)
      requires Valid() && Usable(runners.PinnedBytes(), digest) && registry == entry
      modifies this
      ensures old(writes) <= writes && old(trace) <= trace
      ensures r.Ok? ==> r == Ok(None) && registry == Some(CommandLine(d)) && Listening(trace, port, version)
      ensures r.Err? ==> r.error.Unhealthy? || r.error.NotWritten? || r.error.StartFailed?
      ensures r.Err? && !r.error.StartFailed? ==> Untouched()
      ensures r == Err(StartFailed(true)) ==> registry == entry
      ensures registry == entry || registry == Some(CommandLine(d))
      ensures OnlyEntryOrNew(|old(writes)|, entry, CommandLine(d), digest)
    {
      if entry.Some? && Parse(entry.value) != Ok(d) { return Err(Unhealthy); }
      var failed := ColdStart(entry, d, port, version, digest, answers);
      r := if failed.Some? then Err(failed.value) else Ok(None);
    }

    // A daemon of another version answered: hand it over, which needs a definition to return to.
    method Replace(entry: Option<string>, d: Definition, port: nat, existing: Health, version: string, digest: string, answers: Answers)
      returns (r: Result<Option<nat>, InstallError>, ghost baseline: set<string>)
      requires Valid() && Usable(runners.PinnedBytes(), digest) && registry == entry
      requires trace != [] && trace[|trace| - 1] == Answered(port, existing)
      modifies this
      ensures old(writes) <= writes && old(trace) <= trace
      ensures SessionsKept(trace, |old(trace)| - 1, r, port, port, version, baseline, existing.version, true)
      ensures if r.Ok? then r.value.Some? && registry == Some(CommandLine(d)) else r.error.HandoffFailed? || r.error.NoRollbackDefinition?
      ensures r.Err? && r.error.HandoffFailed? && !r.error.handoff.NotRestored? ==> registry == entry
      ensures r.Err? && !Handed(r) ==> Untouched()
      ensures registry == entry || registry == Some(CommandLine(d))
      ensures OnlyEntryOrNew(|old(writes)|, entry, CommandLine(d), digest)
    {
      baseline := {};
      if entry.None? { return Err(NoRollbackDefinition), baseline; }
      var handoff;
      handoff, baseline := HandoffIfSettled(entry.value, d, port, port, existing, version, digest, answers);
      if !handoff.Refused? {
        SinceTheProbe(trace, |old(trace)| - 1, port, port, existing, true, baseline);
      }
      r := match handoff
        case HandedOff(preserved) => Ok(Some(preserved))
        case _ => Err(HandoffFailed(handoff));
    }

    method Register(entry: Option<string>, d: Definition, port: nat, version: string, digest: string, answers: Answers)
      returns (r: Result<Option<nat>, InstallError>, ghost baseline: set<string>, ghost oldVersion: string)
      requires Valid() && Usable(runners.PinnedBytes(), digest) && registry == entry
      modifies this
      ensures old(writes) <= writes
      ensures r.Ok? ==> registry == Some(CommandLine(d))
      ensures old(trace) <= trace && SessionsKept(trace, |old(trace)|, r, port, port, version, baseline, oldVersion, true)
      ensures r.Ok? && r.value.None? ==> Listening(trace, port, version)
      ensures r.Err? && r.error.HandoffFailed? && !r.error.handoff.NotRestored? ==> registry == entry
      ensures r == Err(StartFailed(true)) ==> registry == entry
      ensures r.Err? && !Handed(r) && !r.error.StartFailed? ==> Untouched()
      ensures r.Err? ==> !r.error.RunnerNotActivated?
      ensures Healthy(answers.probe, version) && Healthy(answers.listening, version) && answers.written ==> r == Ok(None)
      ensures registry == entry || registry == Some(CommandLine(d))
      ensures OnlyEntryOrNew(|old(writes)|, entry, CommandLine(d), digest)
    {
      baseline, oldVersion := {}, "";
      var health := Probe(port, answers.probe);
      if health.Err? { return Err(Unhealthy), baseline, oldVersion; }
      match health.value {
        case Some(existing) =>
          if VersionsMatch(existing.version, version) {
            r := Refresh(d, port, version, digest, answers);
            return;
          }
          oldVersion := existing.version;
          r, baseline := Replace(entry, d, port, existing, version, digest, answers);
        case None =>
          r := StartUnlessOther(entry, d, port, version, digest, answers);
      }
    }

    function DefinitionFor(version: string, port: nat): Definition {
      Definition(root + "\\" + version + "\\sessionsd.exe", port, StableRunnerPath(root))
    }

    // What the installer registers is accepted wherever its daemon is there and a runner is pinned.
    lemma InstalledIsAccepted(version: string, port: nat, files: set<string>)
      requires '\\' !in version && PINNED in runners.entries && DefinitionFor(version, port).daemon in files
      ensures Accepts(DefinitionFor(version, port), files)
    {
      var d := DefinitionFor(version, port);
      assert d.daemon == root + "\\" + version + "\\" + "sessionsd.exe";
      PinnedRunnerIsAccepted(root, version, port, path => if path == StableRunnerPath(root) then true else path in files);
    }

    // Stage the runtime and make sure a runner is pinned; nothing is registered yet.
    method Prepare(digest: string, prepared: bool, staged: bool) returns (r: Option<InstallError>)
      requires Valid()
      modifies runners
      ensures Valid()
      ensures r.None? ==> Usable(runners.PinnedBytes(), digest)
      ensures r.Some? ==> r.value.Unprepared? || r.value.RunnerMissing?
      ensures old(StableRunnerIsPresent(runners.PinnedBytes())) ==>
                runners.PinnedKept(old(runners.entries), old(runners.content)) && (prepared && staged ==> r.None?)
    {
      if !prepared { return Some(Unprepared); }
      var swept := runners.SweepRetiredRunners(true);
      NamesAreApart(PINNED);
      assert PINNED in old(runners.entries) ==> PINNED in runners.entries;
      if !staged { return Some(Unprepared); }
      r := EnsureRunner(digest);
    }

    // A daemon of the wanted version answers on the port: the answers let an install write its definition, whatever
    // port the registered one uses.
    predicate RefreshesMatching(port: nat, version: string, answers: Answers)
      requires PINNED in runners.entries ==> runners.entries[PINNED] in runners.content
      reads this, runners
    {
      && StableRunnerIsPresent(runners.PinnedBytes())
      && answers.prepared && answers.staged && answers.entryReadable && answers.written
      && Accepts(DefinitionFor(version, port), answers.files)
      && (registry.Some? ==> Parse(registry.value).Ok? && Accepts(Parse(registry.value).value, answers.files))
      && Healthy(answers.probe, version) && Healthy(answers.listening, version)
    }

    // Install or update. The registered value is the entry value or the new command line at every moment; only a
    // success or the final activation changes a usable pinned runner.
    method Install(port: nat, version: string, digest: string, answers: Answers)
      returns (r: Result<Option<nat>, InstallError>, ghost baseline: set<string>, ghost oldVersion: string)
      requires Valid()
      modifies this, runners
      ensures Valid() && old(writes) <= writes
      ensures r.Ok? ==> registry == Some(CommandLine(DefinitionFor(version, port))) && runners.PinnedMatches(digest)
      ensures old(trace) <= trace && SessionsKept(trace, |old(trace)|, r, port, port, version, baseline, oldVersion, true)
      ensures r.Ok? && r.value.None? ==> Listening(trace, port, version)
      ensures r.Err? && r.error.HandoffFailed? && !r.error.handoff.NotRestored? ==> registry == old(registry)
      ensures r == Err(StartFailed(true)) ==> registry == old(registry)
      ensures r.Err? && !Handed(r) && !r.error.StartFailed? && !r.error.RunnerNotActivated? ==> Untouched()
      ensures old(RefreshesMatching(port, version, answers)) ==> r.Ok? || r.error.RunnerNotActivated?
      ensures r.Err? && r.error.RunnerNotActivated? ==> registry == Some(CommandLine(DefinitionFor(version, port)))
      ensures r.Err? && r.error.RunnerNotActivated? && old(StableRunnerIsPresent(runners.PinnedBytes())) ==>
                runners.ActivationLeft(r.error.activation, digest, old(runners.entries), old(runners.content))
      ensures r.Err? && !r.error.RunnerNotActivated? && old(StableRunnerIsPresent(runners.PinnedBytes())) ==>
                runners.PinnedKept(old(runners.entries), old(runners.content))
      ensures registry == old(registry) || registry == Some(CommandLine(DefinitionFor(version, port)))
      ensures OnlyEntryOrNew(|old(writes)|, old(registry), CommandLine(DefinitionFor(version, port)), digest)
    {
      baseline, oldVersion := {}, "";
      var unprepared := Prepare(digest, answers.prepared, answers.staged);
      if unprepared.Some? { return Err(unprepared.value), baseline, oldVersion; }
      var definition := DefinitionFor(version, port);
      if !Accepts(definition, answers.files) { return Err(InvalidDefinition), baseline, oldVersion; }
      var entry := ReadLogonSupervisor(answers.entryReadable);
      if entry.Err? { return Err(Unprepared), baseline, oldVersion; }
      if entry.value.Some? {
        var registered := Parse(entry.value.value);
        if registered.Err? { return Err(InvalidDefinition), baseline, oldVersion; }
        if !Accepts(registered.value, answers.files) { return Err(InvalidDefinition), baseline, oldVersion; }
      }
      r, baseline, oldVersion := Register(entry.value, definition, port, version, digest, answers);
      if r.Err? { return; }
      var a := runners.ActivateStableRunner(digest, true, answers.created);
      if !a.Activated? { r := Err(RunnerNotActivated(a)); }
    }

    // ---------- move_port ----------

    // The handoff of a port change. Taking a move back does not ask again whether discovery has settled.
    method HandoffForMove(entry: string, next: Definition, currentPort: nat, requestedPort: nat, health: Health,
                          version: string, digest: string, intent: Intent, answers: Answers)
      returns (r: Handoff, ghost baseline: set<string>)
      requires Valid() && Usable(runners.PinnedBytes(), digest)
      modifies this
      ensures old(writes) <= writes
      ensures HandoffKeeps(r, entry, CommandLine(next), next, digest, currentPort, requestedPort, health.version, version, baseline)
      ensures !r.Refused? ==> Captured(trace, |old(trace)|, currentPort, baseline)
      ensures intent.Requested? && health.discovering ==> r.Refused?
      ensures (intent.Rollback? || !health.discovering) && old(Proceeds(entry, currentPort, requestedPort, answers)) ==>
                Follows(r, version, answers)
      ensures !r.Refused? ==> Parse(entry).Ok? && Parse(entry).value.port == currentPort
    {
      match intent {
        case Requested =>
          r, baseline := HandoffIfSettled(entry, next, currentPort, requestedPort, health, version, digest, answers);
        case Rollback =>
          r, baseline := HandoffSettled(entry, next, currentPort, requestedPort, health.version, version, digest, answers);
      }
    }

    // Hand the running supervisor over to another port and then let the pinned runner follow.
    method MoveRunning(entry: string, currentPort: nat, requestedPort: nat, version: string, digest: string,
                       intent: Intent, health: Health, answers: Answers)
      returns (r: Result<Option<nat>, InstallError>, ghost baseline: set<string>)
      requires Valid() && Usable(runners.PinnedBytes(), digest) && registry == Some(entry)
      requires trace != [] && trace[|trace| - 1] == Answered(currentPort, health)
      modifies this, runners
      ensures Valid() && old(writes) <= writes && old(trace) <= trace
      ensures SessionsKept(trace, |old(trace)| - 1, r, currentPort, requestedPort, version, baseline, health.version, intent.Requested?)
      ensures r.Ok? ==> r.value.Some? && registry == Some(CommandLine(DefinitionFor(version, requestedPort)))
      ensures r.Ok? ==> running == Some(DefinitionFor(version, requestedPort)) && runners.PinnedMatches(digest)
      ensures r.Err? ==> r.error.HandoffFailed? || r.error.RunnerNotActivated?
      ensures r == Err(HandoffFailed(Refused)) ==> Untouched()
      ensures r.Err? && r.error.HandoffFailed? ==> runners.PinnedKept(old(runners.entries), old(runners.content))
      ensures r.Err? && r.error.HandoffFailed? && !r.error.handoff.NotRestored? ==> registry == old(registry)
      ensures r.Err? && r.error.RunnerNotActivated? ==>
                && registry == Some(CommandLine(DefinitionFor(version, requestedPort)))
                && Ready(trace, requestedPort, version, baseline)
                && runners.ActivationLeft(r.error.activation, digest, old(runners.entries), old(runners.content))
      ensures r.Ok? || r.error.RunnerNotActivated? ==> Parse(entry).Ok? && Parse(entry).value.port == currentPort
      // A refused stop that left nothing running, and a runner that could not be activated after everything else went well.
      ensures (intent.Rollback? || !health.discovering) && old(Proceeds(entry, currentPort, requestedPort, answers)) ==>
                && (answers.stop.RefusedButGone? ==> r == Err(HandoffFailed(NotStopped)) && running == None)
                && (answers.stop.Honoured? && answers.released && ComesUp(answers, version, answers.listed.value - {""}) ==>
                      EndsWithActivation(r, answers.created || old(runners.PinnedMatches(digest))))
      ensures registry == old(registry) || registry == Some(CommandLine(DefinitionFor(version, requestedPort)))
      ensures OnlyEntryOrNew(|old(writes)|, old(registry), CommandLine(DefinitionFor(version, requestedPort)), digest)
    {
      var handoff;
      handoff, baseline := HandoffForMove(entry, DefinitionFor(version, requestedPort), currentPort, requestedPort, health,
                                          version, digest, intent, answers);
      if !handoff.Refused? {
        SinceTheProbe(trace, |old(trace)| - 1, currentPort, requestedPort, health, intent.Requested?, baseline);
      }
      if !handoff.HandedOff? { return Err(HandoffFailed(handoff)), baseline; }
      var a := runners.ActivateStableRunner(digest, true, answers.created);
      r := if a.Activated? then Ok(Some(handoff.preserved)) else Err(RunnerNotActivated(a));
    }

    // The answers let a move come as far as the stop request. A way back does not depend on discovery.
    predicate MayStop(currentPort: nat, requestedPort: nat, version: string, intent: Intent, answers: Answers)
      requires PINNED in runners.entries ==> runners.entries[PINNED] in runners.content
      reads this, runners
    {
      && StableRunnerIsPresent(runners.PinnedBytes())
      && answers.prepared && answers.staged && answers.portAvailable && answers.entryReadable
      && answers.probe.Ok? && answers.probe.value.Some? && (intent.Rollback? || !answers.probe.value.value.discovering)
      && Accepts(DefinitionFor(version, requestedPort), answers.files)
      && registry.Some? && Proceeds(registry.value, currentPort, requestedPort, answers)
    }

    // ... and then as far as the activation of its runner.
    predicate MovesThrough(currentPort: nat, requestedPort: nat, version: string, intent: Intent, answers: Answers)
      requires PINNED in runners.entries ==> runners.entries[PINNED] in runners.content
      reads this, runners
    {
      && MayStop(currentPort, requestedPort, version, intent, answers)
      && answers.stop.Honoured? && answers.released && ComesUp(answers, version, answers.listed.value - {""})
    }

    // What has to be there before a move may stop anything: the runtime, a runner, a free port, a running daemon, a
    // definition to return to, and a valid new one.
    method PrepareMove(currentPort: nat, requestedPort: nat, version: string, digest: string, intent: Intent, answers: Answers)
      returns (r: Result<(string, Health), InstallError>)
      requires Valid()
      modifies this`trace, runners
      ensures Valid() && old(trace) <= trace && Undisturbed(trace, |old(trace)|, |trace|)
      ensures r.Ok? ==>
                && Usable(runners.PinnedBytes(), digest) && registry == Some(r.value.0)
                && trace == old(trace) + [Answered(currentPort, r.value.1)]
      ensures r.Err? ==> !r.error.HandoffFailed? && !r.error.RunnerNotActivated? && !r.error.StartFailed?
      ensures old(StableRunnerIsPresent(runners.PinnedBytes())) ==> RunnerKept()
      ensures old(MayStop(currentPort, requestedPort, version, intent, answers)) ==>
                r == Ok((old(registry).value, answers.probe.value.value))
    {
      if !answers.prepared || !answers.staged { return Err(Unprepared); }
      var missing := EnsureRunner(digest);
      if missing.Some? { return Err(missing.value); }
      if !answers.portAvailable { return Err(Unprepared); }
      var health := Probe(currentPort, answers.probe);
      if health.Err? || health.value.None? { return Err(Unhealthy); }
      var entry := ReadLogonSupervisor(answers.entryReadable);
      if entry.Err? || entry.value.None? { return Err(NoRollbackDefinition); }
      if !Accepts(DefinitionFor(version, requestedPort), answers.files) { return Err(InvalidDefinition); }
      r := Ok((entry.value.value, health.value.value));
    }

    method MoveElsewhere(currentPort: nat, requestedPort: nat, version: string, digest: string, intent: Intent, answers: Answers)
      returns (r: Result<Option<nat>, InstallError>, ghost baseline: set<string>, ghost oldVersion: string)
      requires Valid()
      modifies this, runners
      ensures Valid() && old(writes) <= writes && old(trace) <= trace
      ensures SessionsKept(trace, |old(trace)|, r, currentPort, requestedPort, version, baseline, oldVersion, intent.Requested?)
      ensures old(MovesThrough(currentPort, requestedPort, version, intent, answers)) ==>
                EndsWithActivation(r, answers.created || old(runners.PinnedMatches(digest)))
      ensures old(MayStop(currentPort, requestedPort, version, intent, answers)) && answers.stop.RefusedButGone? ==>
                r == Err(HandoffFailed(NotStopped)) && running == None
      ensures r.Ok? ==> registry == Some(CommandLine(DefinitionFor(version, requestedPort))) && runners.PinnedMatches(digest)
      ensures r.Ok? ==> r.value.Some? && running == Some(DefinitionFor(version, requestedPort))
      ensures r.Ok? || r.error.RunnerNotActivated? ==>
                old(registry).Some? && Parse(old(registry).value).Ok? && Parse(old(registry).value).value.port == currentPort
      ensures r.Err? && r.error.RunnerNotActivated? ==> registry == Some(CommandLine(DefinitionFor(version, requestedPort)))
      ensures r.Err? && r.error.RunnerNotActivated? && old(StableRunnerIsPresent(runners.PinnedBytes())) ==>
                runners.ActivationLeft(r.error.activation, digest, old(runners.entries), old(runners.content))
      ensures r.Err? && r.error.HandoffFailed? && !r.error.handoff.NotRestored? ==> registry == old(registry)
      ensures r.Err? && !Handed(r) && !r.error.RunnerNotActivated? ==> Untouched()
      ensures r.Err? ==> !r.error.StartFailed?
      ensures r.Err? && !r.error.RunnerNotActivated? && old(StableRunnerIsPresent(runners.PinnedBytes())) ==>
                runners.PinnedKept(old(runners.entries), old(runners.content))
      ensures registry == old(registry) || registry == Some(CommandLine(DefinitionFor(version, requestedPort)))
      ensures OnlyEntryOrNew(|old(writes)|, old(registry), CommandLine(DefinitionFor(version, requestedPort)), digest)
    {
      baseline, oldVersion := {}, "";
      var prepared := PrepareMove(currentPort, requestedPort, version, digest, intent, answers);
      if prepared.Err? { return Err(prepared.error), baseline, oldVersion; }
      oldVersion := prepared.value.1.version;
      r, baseline := MoveRunning(prepared.value.0, currentPort, requestedPort, version, digest, intent, prepared.value.1, answers);
    }

    // Move to another port. Ok: the new port is registered and lists every baseline session; a handoff reported
    // restored has the entry value back, listing every baseline session on the old port.
    method MovePort(currentPort: nat, requestedPort: nat, version: string, digest: string, intent: Intent, answers: Answers)
      returns (r: Result<Option<nat>, InstallError>, ghost baseline: set<string>, ghost oldVersion: string)
      requires Valid()
      modifies this, runners
      ensures Valid() && old(writes) <= writes && old(trace) <= trace
      ensures SessionsKept(trace, |old(trace)|, r, currentPort, requestedPort, version, baseline, oldVersion,
                           intent.Requested? || currentPort == requestedPort)
      ensures r.Ok? ==> registry == Some(CommandLine(DefinitionFor(version, requestedPort))) && runners.PinnedMatches(digest)
      ensures currentPort != requestedPort && old(MovesThrough(currentPort, requestedPort, version, intent, answers)) ==>
                EndsWithActivation(r, answers.created || old(runners.PinnedMatches(digest)))
      ensures r.Ok? && currentPort != requestedPort ==> r.value.Some? && running == Some(DefinitionFor(version, requestedPort))
      ensures currentPort != requestedPort && (r.Ok? || r.error.RunnerNotActivated?) ==>
                && old(registry).Some? && Parse(old(registry).value).Ok? && Parse(old(registry).value).value.port == currentPort
      ensures r.Err? && r.error.RunnerNotActivated? ==> registry == Some(CommandLine(DefinitionFor(version, requestedPort)))
      ensures r.Err? && r.error.RunnerNotActivated? && old(StableRunnerIsPresent(runners.PinnedBytes())) ==>
                runners.ActivationLeft(r.error.activation, digest, old(runners.entries), old(runners.content))
      ensures r.Err? && r.error.HandoffFailed? && !r.error.handoff.NotRestored? ==> registry == old(registry)
      ensures r.Err? && !Handed(r) && !r.error.StartFailed? && !r.error.RunnerNotActivated? ==> Untouched()
      ensures currentPort != requestedPort && r.Err? ==> !r.error.StartFailed?
      ensures r.Err? && !r.error.RunnerNotActivated? && old(StableRunnerIsPresent(runners.PinnedBytes())) ==>
                runners.PinnedKept(old(runners.entries), old(runners.content))
      ensures registry == old(registry) || registry == Some(CommandLine(DefinitionFor(version, requestedPort)))
      ensures OnlyEntryOrNew(|old(writes)|, old(registry), CommandLine(DefinitionFor(version, requestedPort)), digest)
    {
      if currentPort == requestedPort {
        r, baseline, oldVersion := Install(currentPort, version, digest, answers);
      } else {
        r, baseline, oldVersion := MoveElsewhere(currentPort, requestedPort, version, digest, intent, answers);
      }
    }
  }
}
