/** native_windows.rs: the debounced window-geometry store.

    A state is what the lock, the flag and the file hold, and where every thread stands: threads remembering a
    window, sleeping writers, and flushes. Each move is one atomic action of one thread; every interleaving is
    allowed. `history` lists every value memory has held; `commits` the versions renamed into place, in order. */
module GeometryStore {
  import opened Wrappers

  datatype Bounds = Bounds(x: int, y: int, width: nat, height: nat, maximized: bool)

  type Geometry = map<string, Bounds>

  datatype Task =
    | Arming                                    // changed memory, about to swap the flag
    | Sleeping                                  // spawned writer before its wake-up
    | Clearing                                  // flag cleared, about to take a snapshot
    | Writing(snapshot: Geometry, version: nat)
    | Finished

  datatype State = State(
    memory: Geometry,
    pending: bool,
    file: Option<Geometry>,                     // None: as it was when the store was loaded
    tasks: seq<Task>,
    history: seq<Geometry>,
    taken: nat,                                 // the newest version any snapshot has seen
    commits: seq<nat>,
    failed: bool)

  datatype Move =
    | Remember(name: string, bounds: Bounds)
    | Arm(i: nat)
    | Wake(i: nat)
    | StartFlush
    | Snapshot(i: nat)
    | Commit(i: nat, ok: bool)

  function Init(loaded: Geometry): State {
    State(loaded, false, None, [], [loaded], 0, [], false)
  }

  function Version(s: State): nat { if s.history == [] then 0 else |s.history| - 1 }

  predicate Enabled(s: State, m: Move) {
    s.history != [] &&
    match m
    case Remember(_, _) => true
    case Arm(i) => i < |s.tasks| && s.tasks[i].Arming?
    case Wake(i) => i < |s.tasks| && s.tasks[i].Sleeping?
    case StartFlush => true
    case Snapshot(i) => i < |s.tasks| && s.tasks[i].Clearing?
    case Commit(i, _) => i < |s.tasks| && s.tasks[i].Writing?
  }

  function Apply(s: State, m: Move): State
    requires Enabled(s, m)
  {
    match m
    case Remember(name, bounds) =>
      if name in s.memory && s.memory[name] == bounds then s
      else
        var memory := s.memory[name := bounds];
        s.(memory := memory, history := s.history + [memory], tasks := s.tasks + [Arming])
    case Arm(i) =>
      if s.pending then s.(tasks := s.tasks[i := Finished])
      else s.(pending := true, tasks := s.tasks[i := Sleeping])
    case Wake(i) => s.(pending := false, tasks := s.tasks[i := Clearing])
    case StartFlush => s.(pending := false, tasks := s.tasks + [Clearing])
    case Snapshot(i) => s.(tasks := s.tasks[i := Writing(s.memory, Version(s))], taken := Version(s))
    case Commit(i, ok) =>
      var t := s.tasks[i];
      if ok then s.(tasks := s.tasks[i := Finished], file := Some(t.snapshot), commits := s.commits + [t.version])
      else s.(tasks := s.tasks[i := Finished], failed := true)
  }

  // ---------- the invariant ----------

  // Thread i will still look at memory.
  predicate WillLook(t: Task) { t.Arming? || t.Sleeping? || t.Clearing? }

  ghost predicate SomeoneSleeps(s: State) { exists i: nat :: i < |s.tasks| && s.tasks[i].Sleeping? }

  ghost predicate SomeoneWillLook(s: State) { exists i: nat :: i < |s.tasks| && WillLook(s.tasks[i]) }

  ghost predicate NewestIsKept(s: State) {
    || s.taken == 0
    || s.failed
    || s.taken in s.commits
    || exists i: nat :: i < |s.tasks| && s.tasks[i].Writing? && s.tasks[i].version == s.taken
  }

  ghost predicate Inv(s: State) {
    && s.history != [] && s.memory == s.history[Version(s)] && s.taken <= Version(s)
    && (s.pending ==> SomeoneSleeps(s))
    // No update is lost: whatever no snapshot has seen yet, somebody is still going to look at.
    && (s.taken < Version(s) ==> SomeoneWillLook(s))
    && NewestIsKept(s)
    && (forall i :: 0 <= i < |s.tasks| && s.tasks[i].Writing? ==>
          s.tasks[i].version <= s.taken && s.tasks[i].snapshot == s.history[s.tasks[i].version])
    && (forall k :: 0 <= k < |s.commits| ==> s.commits[k] <= s.taken)
    && (s.file.None? <==> s.commits == [])
    && (s.file.Some? ==> s.file.value == s.history[s.commits[|s.commits| - 1]])
  }

  lemma InitInv(loaded: Geometry)
    ensures Inv(Init(loaded))
  {
  }

  // Replacing one task by a later stage keeps every other task as witness.
  lemma OthersKeep(s: State, t: State, i: nat)
    requires i < |s.tasks| <= |t.tasks|
    requires forall j :: 0 <= j < |s.tasks| && j != i ==> t.tasks[j] == s.tasks[j]
    ensures SomeoneSleeps(s) && !s.tasks[i].Sleeping? ==> SomeoneSleeps(t)
    ensures SomeoneWillLook(s) && (!WillLook(s.tasks[i]) || WillLook(t.tasks[i])) ==> SomeoneWillLook(t)
  {
    if SomeoneSleeps(s) && !s.tasks[i].Sleeping? {
      var j: nat :| j < |s.tasks| && s.tasks[j].Sleeping?;
      assert t.tasks[j].Sleeping?;
    }
    if SomeoneWillLook(s) && (!WillLook(s.tasks[i]) || WillLook(t.tasks[i])) {
      var j: nat :| j < |s.tasks| && WillLook(s.tasks[j]);
      assert WillLook(t.tasks[j]);
    }
  }

  lemma NewestStaysKept(s: State, t: State)
    requires NewestIsKept(s) && t.taken == s.taken && |s.tasks| <= |t.tasks|
    requires s.failed ==> t.failed
    requires forall c :: c in s.commits ==> c in t.commits
    requires forall j: nat :: j < |s.tasks| && s.tasks[j].Writing? ==>
               t.tasks[j] == s.tasks[j] || s.tasks[j].version in t.commits || t.failed
    ensures NewestIsKept(t)
  {
    if s.taken != 0 && !s.failed && s.taken !in s.commits {
      var j: nat :| j < |s.tasks| && s.tasks[j].Writing? && s.tasks[j].version == s.taken;
      assert t.tasks[j] == s.tasks[j] || s.taken in t.commits || t.failed;
    }
  }

  lemma RememberKeepsInv(s: State, name: string, bounds: Bounds)
    requires Inv(s)
    ensures Inv(Apply(s, Remember(name, bounds)))
  {
    var t := Apply(s, Remember(name, bounds));
    if t != s {
      assert t.tasks[|s.tasks|] == Arming;
      assert WillLook(t.tasks[|s.tasks|]);
      if SomeoneSleeps(s) {
        var j: nat :| j < |s.tasks| && s.tasks[j].Sleeping?;
        assert t.tasks[j].Sleeping?;
      }
      NewestStaysKept(s, t);
    }
  }

  lemma ArmKeepsInv(s: State, i: nat)
    requires Inv(s) && Enabled(s, Arm(i))
    ensures Inv(Apply(s, Arm(i)))
  {
    var t := Apply(s, Arm(i));
    OthersKeep(s, t, i);
    if s.pending {
      var j: nat :| j < |t.tasks| && t.tasks[j].Sleeping?;
      assert WillLook(t.tasks[j]);
    } else {
      assert t.tasks[i].Sleeping? && WillLook(t.tasks[i]);
    }
    NewestStaysKept(s, t);
  }

  lemma ClearKeepsInv(s: State, m: Move)
    requires Inv(s) && Enabled(s, m) && (m.Wake? || m.StartFlush?)
    ensures Inv(Apply(s, m))
  {
    var t := Apply(s, m);
    var i := if m.Wake? then m.i else |s.tasks|;
    assert t.tasks[i].Clearing? && WillLook(t.tasks[i]);
    NewestStaysKept(s, t);
  }

  lemma SnapshotKeepsInv(s: State, i: nat)
    requires Inv(s) && Enabled(s, Snapshot(i))
    ensures Inv(Apply(s, Snapshot(i)))
  {
    var t := Apply(s, Snapshot(i));
    OthersKeep(s, t, i);
    assert t.tasks[i].Writing? && t.tasks[i].version == t.taken;
  }

  lemma CommitKeepsInv(s: State, i: nat, ok: bool)
    requires Inv(s) && Enabled(s, Commit(i, ok))
    ensures Inv(Apply(s, Commit(i, ok)))
  {
    var t := Apply(s, Commit(i, ok));
    OthersKeep(s, t, i);
    NewestStaysKept(s, t);
  }

  lemma MoveKeepsInv(s: State, m: Move)
    requires Inv(s) && Enabled(s, m)
    ensures Inv(Apply(s, m))
  {
    match m
    case Remember(name, bounds) => RememberKeepsInv(s, name, bounds);
    case Arm(i) => ArmKeepsInv(s, i);
    case Wake(_) => ClearKeepsInv(s, m);
    case StartFlush => ClearKeepsInv(s, m);
    case Snapshot(i) => SnapshotKeepsInv(s, i);
    case Commit(i, ok) => CommitKeepsInv(s, i, ok);
  }

  // ---------- every run ----------

  ghost predicate IsRun(run: seq<State>, moves: seq<Move>) {
    && |run| == |moves| + 1
    && forall i :: 0 <= i < |moves| ==> Enabled(run[i], moves[i]) && run[i + 1] == Apply(run[i], moves[i])
  }

  lemma {:induction false} RunKeepsInv(run: seq<State>, moves: seq<Move>, loaded: Geometry, i: nat)
    requires IsRun(run, moves) && run[0] == Init(loaded) && i < |run|
    ensures Inv(run[i])
  {
    if i == 0 {
      InitInv(loaded);
    } else {
      RunKeepsInv(run, moves, loaded, i - 1);
      MoveKeepsInv(run[i - 1], moves[i - 1]);
    }
  }

  // In every reachable state an update newer than every snapshot has a thread that will still take one, and the
  // file is as it was loaded or one whole value memory has held.
  lemma NoUpdateIsLost(run: seq<State>, moves: seq<Move>, loaded: Geometry)
    requires IsRun(run, moves) && run[0] == Init(loaded)
    ensures var s := run[|moves|];
            && (s.taken < Version(s) ==> SomeoneWillLook(s))
            && (s.file.Some? ==> s.file.value in s.history)
  {
    RunKeepsInv(run, moves, loaded, |moves|);
  }

  ghost predicate Quiescent(s: State) { forall i :: 0 <= i < |s.tasks| ==> s.tasks[i].Finished? }

  // The last rename did not bring an older snapshot than an earlier one.
  ghost predicate LastCommitInOrder(s: State) {
    forall k :: 0 <= k < |s.commits| ==> s.commits[k] <= s.commits[|s.commits| - 1]
  }

  // When all threads are done, no write failed and something changed, the file holds the newest version exactly when
  // the last rename was in snapshot order.
  lemma QuiescentFileIsNewest(run: seq<State>, moves: seq<Move>, loaded: Geometry)
    requires IsRun(run, moves) && run[0] == Init(loaded)
    requires Quiescent(run[|moves|]) && !run[|moves|].failed && Version(run[|moves|]) > 0
    ensures var s := run[|moves|];
            && s.commits != []
            && (s.commits[|s.commits| - 1] == Version(s) <==> LastCommitInOrder(s))
            && (LastCommitInOrder(s) ==> s.file == Some(s.memory))
  {
    RunKeepsInv(run, moves, loaded, |moves|);
    var s := run[|moves|];
    assert !SomeoneWillLook(s);
    assert s.taken == Version(s) && s.taken in s.commits;
  }

  // Renames that keep snapshot order throughout leave the file equal to memory.
  lemma OrderedRenamesSaveMemory(run: seq<State>, moves: seq<Move>, loaded: Geometry)
    requires IsRun(run, moves) && run[0] == Init(loaded)
    requires Quiescent(run[|moves|]) && !run[|moves|].failed
    requires forall j, k :: 0 <= j < k < |run[|moves|].commits| ==> run[|moves|].commits[j] <= run[|moves|].commits[k]
    ensures var s := run[|moves|]; s.file == Some(s.memory) || (s.memory == loaded && Version(s) == 0)
  {
    RunKeepsInv(run, moves, loaded, |moves|);
    RunStartsFromLoaded(run, moves, loaded, |moves|);
    if Version(run[|moves|]) > 0 {
      QuiescentFileIsNewest(run, moves, loaded);
    }
  }

  lemma {:induction false} RunStartsFromLoaded(run: seq<State>, moves: seq<Move>, loaded: Geometry, i: nat)
    requires IsRun(run, moves) && run[0] == Init(loaded) && i < |run|
    ensures run[i].history != [] && run[i].history[0] == loaded
  {
    if i > 0 {
      RunStartsFromLoaded(run, moves, loaded, i - 1);
    }
  }

  lemma Extend(run: seq<State>, moves: seq<Move>, m: Move, next: State) returns (run': seq<State>, moves': seq<Move>)
    requires IsRun(run, moves) && Enabled(run[|moves|], m) && next == Apply(run[|moves|], m)
    ensures IsRun(run', moves') && run'[|moves'|] == next && run'[0] == run[0]
  {
    run', moves' := run + [next], moves + [m];
  }

  // One thread remembers a window and carries it as far as a snapshot.
  lemma UpToSnapshot(a: Bounds) returns (run: seq<State>, moves: seq<Move>)
    ensures IsRun(run, moves) && run[0] == Init(map[])
    ensures run[|moves|] == State(map["main" := a], false, None, [Writing(map["main" := a], 1)], [map[], map["main" := a]], 1, [], false)
  {
    run, moves := [Init(map[])], [];
    var s1 := State(map["main" := a], false, None, [Arming], [map[], map["main" := a]], 0, [], false);
    run, moves := Extend(run, moves, Remember("main", a), s1);
    var s2 := s1.(pending := true, tasks := [Sleeping]);
    run, moves := Extend(run, moves, Arm(0), s2);
    var s3 := s2.(pending := false, tasks := [Clearing]);
    run, moves := Extend(run, moves, Wake(0), s3);
    run, moves := Extend(run, moves, Snapshot(0), s3.(tasks := [Writing(map["main" := a], 1)], taken := 1));
  }

  // Out of order the guarantee fails: a writer delayed inside its rename overwrites the newer value for good.
  lemma DelayedRenameLosesTheNewerValue(a: Bounds, b: Bounds) returns (run: seq<State>, moves: seq<Move>)
    requires a != b
    ensures IsRun(run, moves) && run[0] == Init(map[])
    ensures var s := run[|moves|];
            Quiescent(s) && !s.failed && s.memory == map["main" := b] && s.file == Some(map["main" := a])
  {
    run, moves := UpToSnapshot(a);
    var delayed, newer := Writing(map["main" := a], 1), Writing(map["main" := b], 2);
    var s4 := run[|moves|];
    assert map["main" := a]["main" := b] == map["main" := b];
    var s5 := s4.(memory := map["main" := b], history := [map[], map["main" := a], map["main" := b]], tasks := [delayed, Arming]);
    run, moves := Extend(run, moves, Remember("main", b), s5);
    var s6 := s5.(pending := true, tasks := [delayed, Sleeping]);
    run, moves := Extend(run, moves, Arm(1), s6);
    var s7 := s6.(pending := false, tasks := [delayed, Clearing]);
    run, moves := Extend(run, moves, Wake(1), s7);
    var s8 := s7.(tasks := [delayed, newer], taken := 2);
    run, moves := Extend(run, moves, Snapshot(1), s8);
    var s9 := s8.(tasks := [delayed, Finished], file := Some(map["main" := b]), commits := [2]);
    run, moves := Extend(run, moves, Commit(1, true), s9);
    run, moves := Extend(run, moves, Commit(0, true), s9.(tasks := [Finished, Finished], file := Some(map["main" := a]), commits := [2, 1]));
  }
}
