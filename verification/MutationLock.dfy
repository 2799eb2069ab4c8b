/** lifecycle.rs: the one lock every mutation of the background service takes, or is refused by.

    Any number of calls (launch reconciliation, Recover, a port change) run at once over one world W: the service, its
    definition, the saved port. A step of a call sees the world as it is and leaves it changed; `trace` lists all
    steps in the order they happened, `order` the calls that got the lock. A holder may end in a panic, which
    poisons the lock. */
module MutationLock {
  import opened Wrappers
  import opened Launchd
  import opened Lifecycle
  import opened Plist

  datatype Stage = Arrived | Holding | Refused | Ended

  datatype Step<W> = Step(call: nat, before: W, after: W)

  datatype State<W> = State(
    world: W,
    calls: seq<Stage>,
    holder: Option<nat>,
    poisoned: bool,
    order: seq<nat>,
    trace: seq<Step<W>>)

  datatype Move<W> =
    | Arrive
    | TryLock(c: nat)
    | Act(c: nat, after: W)  // one external step: launchctl, a file, the port
    | Leave(c: nat, panics: bool)

  function Init<W>(world: W): State<W> { State(world, [], None, false, [], []) }

  predicate Enabled<W>(s: State<W>, m: Move<W>) {
    match m
    case Arrive => true
    case TryLock(c) => c < |s.calls| && s.calls[c].Arrived?
    case Act(c, _) => c < |s.calls| && s.calls[c].Holding?
    case Leave(c, _) => c < |s.calls| && s.calls[c].Holding?
  }

  function Apply<W>(s: State<W>, m: Move<W>): State<W>
    requires Enabled(s, m)
  {
    match m
    case Arrive => s.(calls := s.calls + [Arrived])
    case TryLock(c) =>
      // A poisoned lock is taken like any other; only a held one refuses.
      if s.holder.Some? then s.(calls := s.calls[c := Stage.Refused])
      else s.(calls := s.calls[c := Holding], holder := Some(c), order := s.order + [c])
    case Act(c, after) => s.(world := after, trace := s.trace + [Step(c, s.world, after)])
    case Leave(c, panics) => s.(calls := s.calls[c := Ended], holder := None, poisoned := s.poisoned || panics)
  }

  ghost predicate CanRun<W>(s: State<W>, moves: seq<Move<W>>)
    decreases |moves|
  {
    moves == [] || (Enabled(s, moves[0]) && CanRun(Apply(s, moves[0]), moves[1..]))
  }

  function Run<W>(s: State<W>, moves: seq<Move<W>>): State<W>
    requires CanRun(s, moves)
    decreases |moves|
  {
    if moves == [] then s else Run(Apply(s, moves[0]), moves[1..])
  }

  // ---------- the serial run ----------

  // The steps of one call, in order.
  function Of<W>(trace: seq<Step<W>>, c: nat): seq<Step<W>> {
    if trace == [] then []
    else Of(trace[..|trace| - 1], c) + if trace[|trace| - 1].call == c then [trace[|trace| - 1]] else []
  }

  // The calls one after the other, each with all its steps.
  function Serial<W>(trace: seq<Step<W>>, order: seq<nat>): seq<Step<W>> {
    if order == [] then [] else Serial(trace, order[..|order| - 1]) + Of(trace, order[|order| - 1])
  }

  ghost predicate Inv<W>(s: State<W>) {
    && (s.holder.Some? ==> s.order != [] && s.order[|s.order| - 1] == s.holder.value)
    && (forall c :: 0 <= c < |s.calls| ==> (s.calls[c].Holding? <==> s.holder == Some(c)))
    && (forall c :: c in s.order ==> c < |s.calls| && (s.calls[c].Holding? || s.calls[c].Ended?))
    && (forall i, j :: 0 <= i < j < |s.order| ==> s.order[i] != s.order[j])
    && (forall i :: 0 <= i < |s.trace| ==> s.trace[i].call in s.order)
    && s.trace == Serial(s.trace, s.order)
  }

  lemma OfExtended<W>(trace: seq<Step<W>>, step: Step<W>, c: nat)
    ensures Of(trace + [step], c) == Of(trace, c) + if step.call == c then [step] else []
  {
    assert (trace + [step])[..|trace|] == trace;
  }

  lemma {:induction false} SerialOfOthers<W>(trace: seq<Step<W>>, step: Step<W>, order: seq<nat>)
    requires step.call !in order
    ensures Serial(trace + [step], order) == Serial(trace, order)
  {
    if order != [] {
      SerialOfOthers(trace, step, order[..|order| - 1]);
      OfExtended(trace, step, order[|order| - 1]);
    }
  }

  lemma SerialOfLast<W>(trace: seq<Step<W>>, step: Step<W>, order: seq<nat>)
    requires order != [] && order[|order| - 1] == step.call && step.call !in order[..|order| - 1]
    ensures Serial(trace + [step], order) == Serial(trace, order) + [step]
  {
    var front := order[..|order| - 1];
    SerialOfOthers(trace, step, front);
    OfExtended(trace, step, step.call);
    assert Serial(trace, front) + (Of(trace, step.call) + [step]) == (Serial(trace, front) + Of(trace, step.call)) + [step];
  }

  lemma {:induction false} OfAbsent<W>(trace: seq<Step<W>>, c: nat)
    requires forall i :: 0 <= i < |trace| ==> trace[i].call != c
    ensures Of(trace, c) == []
  {
    if trace != [] { OfAbsent(trace[..|trace| - 1], c); }
  }

  lemma TryLockKeepsInv<W>(s: State<W>, c: nat)
    requires Inv(s) && Enabled(s, TryLock(c))
    ensures Inv(Apply(s, TryLock(c)))
    ensures s.holder.None? ==> Of(s.trace, c) == []
  {
    if s.holder.None? {
      assert c !in s.order;
      OfAbsent(s.trace, c);
      assert (s.order + [c])[..|s.order|] == s.order;
    }
  }

  lemma ActKeepsInv<W>(s: State<W>, c: nat, after: W)
    requires Inv(s) && Enabled(s, Act(c, after))
    ensures Inv(Apply(s, Act(c, after)))
  {
    var step := Step(c, s.world, after);
    SerialOfLast(s.trace, step, s.order);
  }

  lemma MoveKeepsInv<W>(s: State<W>, m: Move<W>)
    requires Inv(s) && Enabled(s, m)
    ensures Inv(Apply(s, m))
  {
    match m
    case Arrive => assert s.holder.Some? ==> s.holder.value in s.order;
    case TryLock(c) => TryLockKeepsInv(s, c);
    case Act(c, after) => ActKeepsInv(s, c, after);
    case Leave(c, _) =>
  }

  lemma {:induction false} RunKeepsInv<W>(s: State<W>, moves: seq<Move<W>>)
    requires Inv(s) && CanRun(s, moves)
    ensures Inv(Run(s, moves))
    decreases |moves|
  {
    if moves != [] {
      MoveKeepsInv(s, moves[0]);
      RunKeepsInv(Apply(s, moves[0]), moves[1..]);
    }
  }

  // However many calls arrive, act, panic and are refused: what happened is what would happen if the calls that
  // got the lock ran one after the other, and a refused call has done nothing.
  lemma MutationsRunOneAtATime<W>(world: W, moves: seq<Move<W>>)
    requires CanRun(Init(world), moves)
    ensures var t := Run(Init(world), moves);
            && t.trace == Serial(t.trace, t.order)
            && (forall i, j :: 0 <= i < j < |t.order| ==> t.order[i] != t.order[j])
            && (forall c :: 0 <= c < |t.calls| && t.calls[c].Refused? ==> c !in t.order)
            && (forall i :: 0 <= i < |t.trace| ==> t.trace[i].call in t.order)
  {
    RunKeepsInv(Init(world), moves);
  }

  // A call is refused exactly while some call is at work: nobody is locked out by a holder that panicked.
  lemma RefusedExactlyByAHolder<W>(world: W, moves: seq<Move<W>>, c: nat)
    requires CanRun(Init(world), moves) && Enabled(Run(Init(world), moves), TryLock(c))
    ensures Apply(Run(Init(world), moves), TryLock(c)).calls[c].Refused? <==> Holding in Run(Init(world), moves).calls
  {
    RunKeepsInv(Init(world), moves);
    var s := Run(Init(world), moves);
    if s.holder.Some? {
      assert s.holder.value in s.order;
      assert s.calls[s.holder.value].Holding?;
    }
  }

  // ---------- what every call keeps when alone, all of them keep together ----------

  // Nobody else changed the world between two of these steps.
  ghost predicate Undisturbed<W>(steps: seq<Step<W>>) {
    forall i :: 0 <= i < |steps| - 1 ==> steps[i + 1].before == steps[i].after
  }

  // Which steps a call that has left can have made, given what it saw.
  type Program<!W> = (nat, seq<Step<W>>) -> bool

  // Every call, left alone, keeps `good`.
  ghost predicate KeepsAlone<W(!new)>(program: Program<W>, good: W -> bool) {
    forall c: nat, steps: seq<Step<W>> ::
      program(c, steps) && steps != [] && Undisturbed(steps) && good(steps[0].before) ==> good(steps[|steps| - 1].after)
  }

  // Every call that has left ran as its program says.
  ghost predicate Obeys<W>(s: State<W>, program: Program<W>) {
    forall c :: 0 <= c < |s.calls| && s.calls[c].Ended? ==> program(c, Of(s.trace, c))
  }

  // While a call holds the lock, it started from a good world and nobody else has touched it since.
  ghost predicate Safe<W>(s: State<W>, good: W -> bool) {
    match s.holder
    case None => good(s.world)
    case Some(c) =>
      var mine := Of(s.trace, c);
      if mine == [] then good(s.world)
      else good(mine[0].before) && Undisturbed(mine) && mine[|mine| - 1].after == s.world
  }

  lemma ActKeepsSafe<W>(s: State<W>, c: nat, after: W, good: W -> bool)
    requires Inv(s) && Enabled(s, Act(c, after)) && Safe(s, good)
    ensures Safe(Apply(s, Act(c, after)), good)
  {
    var mine, step := Of(s.trace, c), Step(c, s.world, after);
    OfExtended(s.trace, step, c);
    assert Of(s.trace + [step], c) == mine + [step];
    assert Undisturbed(mine) ==> Undisturbed(mine + [step]);
  }

  lemma LeaveKeepsSafe<W(!new)>(s: State<W>, c: nat, panics: bool, program: Program<W>, good: W -> bool)
    requires Inv(s) && Enabled(s, Leave(c, panics)) && Safe(s, good)
    requires KeepsAlone(program, good) && program(c, Of(s.trace, c))
    ensures Safe(Apply(s, Leave(c, panics)), good)
  {
  }

  lemma MoveKeepsSafe<W(!new)>(s: State<W>, m: Move<W>, program: Program<W>, good: W -> bool)
    requires Inv(s) && Enabled(s, m) && Safe(s, good)
    requires KeepsAlone(program, good) && Obeys(Apply(s, m), program)
    ensures Safe(Apply(s, m), good)
  {
    match m
    case Arrive =>
    case TryLock(c) => TryLockKeepsInv(s, c);
    case Act(c, after) => ActKeepsSafe(s, c, after, good);
    case Leave(c, panics) =>
      assert Apply(s, m).calls[c].Ended?;
      LeaveKeepsSafe(s, c, panics, program, good);
  }

  // A run in which every call that leaves has obeyed its program, at that moment.
  ghost predicate ObeysThroughout<W>(s: State<W>, moves: seq<Move<W>>, program: Program<W>)
    requires CanRun(s, moves)
    decreases |moves|
  {
    Obeys(s, program) && (moves != [] ==> ObeysThroughout(Apply(s, moves[0]), moves[1..], program))
  }

  lemma {:induction false} RunKeepsSafe<W(!new)>(s: State<W>, moves: seq<Move<W>>, program: Program<W>, good: W -> bool)
    requires CanRun(s, moves) && Inv(s) && Safe(s, good)
    requires KeepsAlone(program, good) && ObeysThroughout(s, moves, program)
    ensures Inv(Run(s, moves)) && Safe(Run(s, moves), good)
    decreases |moves|
  {
    if moves != [] {
      MoveKeepsInv(s, moves[0]);
      MoveKeepsSafe(s, moves[0], program, good);
      RunKeepsSafe(Apply(s, moves[0]), moves[1..], program, good);
    }
  }

  // Whatever each call keeps when nobody interferes holds whenever nobody is at work, in every interleaving.
  lemma WhatEachKeepsAllKeep<W(!new)>(world: W, moves: seq<Move<W>>, program: Program<W>, good: W -> bool)
    requires CanRun(Init(world), moves) && ObeysThroughout(Init(world), moves, program)
    requires KeepsAlone(program, good) && good(world)
    ensures Run(Init(world), moves).holder.None? ==> good(Run(Init(world), moves).world)
  {
    RunKeepsSafe(Init(world), moves, program, good);
  }

  // ---------- the service ----------

  // How a finished call resolved the port, and whether it ended with an install for it.
  datatype Ending = Ending(port: nat, installed: bool)

  // What Lifecycle.Manager.Reconcile and ReconfigurePort promise of a call that neither panics nor reports a failed
  // rollback.
  ghost predicate OrderAfterEach(program: Program<Service>, endings: nat -> Ending, printer: Printer) {
    forall c: nat, steps: seq<Step<Service>> ::
      program(c, steps) && steps != [] && Undisturbed(steps)
      ==> OrderAfter(steps[0].before, steps[|steps| - 1].after, endings(c).port, endings(c).installed, printer)
  }

  // Every call that installs has read the saved port.
  ghost predicate ReadsSettings(program: Program<Service>, endings: nat -> Ending) {
    forall c: nat, steps: seq<Step<Service>> ::
      program(c, steps) && steps != [] && endings(c).installed ==> endings(c).port == steps[0].before.savedPort
  }

  // So long as no call panics, reports a failed rollback or installs without having read the settings, launchd runs
  // the definition on disk and its port is the saved one whenever no call is at work, however reconciliations and port
  // changes overlap.
  lemma ServiceStaysInOrder(service: Service, moves: seq<Move<Service>>, program: Program<Service>,
                            endings: nat -> Ending, printer: Printer)
    requires CanRun(Init(service), moves) && ObeysThroughout(Init(service), moves, program)
    requires OrderAfterEach(program, endings, printer) && ReadsSettings(program, endings) && InOrder(service, printer)
    ensures Run(Init(service), moves).holder.None? ==> InOrder(Run(Init(service), moves).world, printer)
  {
    WhatEachKeepsAllKeep(service, moves, program, s => InOrder(s, printer));
  }

  lemma RunFrom<W>(s: State<W>, m: Move<W>, rest: seq<Move<W>>)
    requires Enabled(s, m) && CanRun(Apply(s, m), rest)
    ensures CanRun(s, [m] + rest) && Run(s, [m] + rest) == Run(Apply(s, m), rest)
  {
    assert ([m] + rest)[1..] == rest;
  }

  // One call alone takes the lock, does one thing and leaves.
  lemma OneCallAlone<W>(before: W, after: W) returns (moves: seq<Move<W>>)
    ensures CanRun(Init(before), moves)
    ensures var t := Run(Init(before), moves); t.holder.None? && !t.poisoned && t.calls == [Ended] && t.world == after
  {
    var arrived := Apply(Init(before), Arrive);
    var holding := Apply(arrived, TryLock(0));
    var acted := Apply(holding, Act(0, after));
    var leaving := [Leave(0, false)] + [];
    var acting := [Act(0, after)] + leaving;
    var taking := [TryLock(0)] + acting;
    moves := [Arrive] + taking;
    RunFrom(acted, Leave(0, false), []);
    RunFrom(holding, Act(0, after), leaving);
    RunFrom(arrived, TryLock(0), acting);
    RunFrom(Init(before), Arrive, taking);
    assert Apply(acted, Leave(0, false)).calls == [Ended];
  }

  // Reading them is needed: a lone call that, promising what the others do, installs a definition for another port ends
  // the order.
  lemma UnreadSettingsEndTheOrder(before: Service, c: Config, dir: string, printer: Printer) returns (moves: seq<Move<Service>>)
    requires NamesOnePort(printer) && InOrder(before, printer) && c.port != before.savedPort
    ensures CanRun(Init(before), moves)
    ensures var t := Run(Init(before), moves);
            && t.holder.None? && !t.poisoned && t.calls == [Ended]
            && t.world.job == Loaded(printer(c, dir)) && !InOrder(t.world, printer)
            && OrderAfter(before, t.world, c.port, true, printer)
  {
    var after := Service(Some(printer(c, dir)), Loaded(printer(c, dir)), before.savedPort);
    InOrderOnOnePort(after, c, dir, printer);
    moves := OneCallAlone(before, after);
  }
}
