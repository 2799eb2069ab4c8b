/** FleetProviderUpdates.tsx: two workers updating a provider on every computer from one queue.

    JavaScript runs one worker at a time between awaits, so a move is a stretch of one worker's code; the moves of
    the two workers, the settling of their calls and further clicks interleave in every possible order. */
module FleetUpdates {
  import opened Wrappers

  datatype Server = Server(id: string, directoryOnly: bool)

  datatype Status = Waiting | Updating | Updated | Unknown | Skipped

  datatype Row = Row(id: string, status: Status)

  datatype Worker = AtQueue | Calling(target: nat) | Exited

  // queue, calls and settled name targets by their position; calls lists the updater invocations in order.
  datatype State = State(
    busy: bool,
    rows: seq<Row>,
    targets: seq<Server>,
    queue: seq<nat>,
    workers: seq<Worker>,
    calls: seq<nat>,
    settled: map<nat, Status>)

  datatype Move =
    | Click(servers: seq<Server>)
    | TakeNext(worker: nat)
    | Settle(worker: nat, confirmed: bool)
    | Finish

  const INITIAL := State(false, [], [], [], [Exited, Exited], [], map[])

  ghost predicate UniqueIds(servers: seq<Server>) {
    forall i, j :: 0 <= i < j < |servers| ==> servers[i].id != servers[j].id
  }

  function WaitingRows(servers: seq<Server>): (rows: seq<Row>)
    ensures |rows| == |servers| && forall i :: 0 <= i < |rows| ==> rows[i] == Row(servers[i].id, Waiting)
  {
    seq(|servers|, i requires 0 <= i < |servers| => Row(servers[i].id, Waiting))
  }

  function Positions(from: nat, to: nat): (p: seq<nat>)
    requires from <= to
    ensures |p| == to - from && forall k :: 0 <= k < |p| ==> p[k] == from + k
  {
    seq(to - from, k requires 0 <= k => from + k)
  }

  // setState over the previous rows: every row with that id takes the status.
  function Publish(rows: seq<Row>, id: string, status: Status): (r: seq<Row>)
    ensures |r| == |rows|
    ensures forall i :: 0 <= i < |rows| ==> r[i] == if rows[i].id == id then Row(id, status) else rows[i]
  {
    seq(|rows|, i requires 0 <= i < |rows| => if rows[i].id == id then Row(id, status) else rows[i])
  }

  predicate Enabled(s: State, m: Move) {
    match m
    case Click(_) => true
    case TakeNext(w) =>
      && w < |s.workers| && s.workers[w].AtQueue?
      && (s.queue != [] ==> s.queue[0] < |s.targets|)
    case Settle(w, _) => w < |s.workers| && s.workers[w].Calling? && s.workers[w].target < |s.targets|
    case Finish => s.busy && forall w :: 0 <= w < |s.workers| ==> s.workers[w].Exited?
  }

  function Apply(s: State, m: Move): State
    requires Enabled(s, m)
  {
    match m
    case Click(servers) =>
      if s.busy then s
      else State(true, WaitingRows(servers), servers, Positions(0, |servers|), [AtQueue, AtQueue], [], map[])
    case TakeNext(w) =>
      if s.queue == [] then s.(workers := s.workers[w := Exited])
      else
        var i, rest := s.queue[0], s.queue[1..];
        var id := s.targets[i].id;
        if s.targets[i].directoryOnly then
          s.(queue := rest, rows := Publish(s.rows, id, Skipped), settled := s.settled[i := Skipped])
        else
          s.(queue := rest, rows := Publish(s.rows, id, Updating), workers := s.workers[w := Calling(i)], calls := s.calls + [i])
    case Settle(w, confirmed) =>
      var i := s.workers[w].target;
      var status := if confirmed then Updated else Unknown;
      s.(rows := Publish(s.rows, s.targets[i].id, status), workers := s.workers[w := AtQueue], settled := s.settled[i := status])
    case Finish => s.(busy := false)
  }

  // ---------- the invariant ----------

  predicate InFlight(s: State, i: nat) { exists w :: 0 <= w < |s.workers| && s.workers[w] == Calling(i) }

  predicate Taken(s: State, i: nat) { InFlight(s, i) || i in s.settled }

  // The number of targets taken from the queue so far.
  function NextTarget(s: State): int { |s.targets| - |s.queue| }

  ghost predicate RowShows(s: State, i: nat)
    requires i < |s.targets| == |s.rows|
  {
    && s.rows[i].id == s.targets[i].id
    && s.rows[i].status == (if i in s.settled then s.settled[i] else if InFlight(s, i) then Updating else Waiting)
  }

  ghost predicate Partition(s: State) {
    && 0 <= NextTarget(s)
    && s.queue == Positions(NextTarget(s), |s.targets|)
    && (forall i: nat :: i < NextTarget(s) <==> Taken(s, i))
    && (forall i: nat :: !(InFlight(s, i) && i in s.settled))
    && (forall v, w :: 0 <= v < w < |s.workers| && s.workers[v].Calling? ==> s.workers[v] != s.workers[w])
  }

  ghost predicate CallsInv(s: State) {
    && (forall j, k :: 0 <= j < k < |s.calls| ==> s.calls[j] != s.calls[k])
    && (forall i: nat :: InFlight(s, i) ==> i in s.calls)
    && (forall i: nat :: i in s.calls <==> i < |s.targets| && Taken(s, i) && !s.targets[i].directoryOnly)
  }

  ghost predicate SettledInv(s: State) {
    forall i :: i in s.settled ==>
      (i < |s.targets| &&
       if s.targets[i].directoryOnly then s.settled[i] == Skipped else s.settled[i] == Updated || s.settled[i] == Unknown)
  }

  ghost predicate Inv(s: State) {
    && |s.workers| == 2 && |s.rows| == |s.targets| && UniqueIds(s.targets)
    && Partition(s)
    && CallsInv(s)
    && SettledInv(s)
    && (forall i: nat :: i < |s.targets| ==> RowShows(s, i))
    && (!s.busy ==> s.workers == [Exited, Exited])
    && ((exists w :: 0 <= w < 2 && s.workers[w].Exited?) ==> s.queue == [])
  }

  lemma InitialInv()
    ensures Inv(INITIAL)
  {
  }

  lemma ClickKeepsInv(s: State, servers: seq<Server>)
    requires Inv(s) && UniqueIds(servers)
    ensures Inv(Apply(s, Click(servers)))
  {
    var t := Apply(s, Click(servers));
    if !s.busy {
      assert forall i: nat :: !InFlight(t, i) && i !in t.settled;
    }
  }

  // After replacing worker w, the targets in flight are the other worker's and the new one.
  lemma FlightAfter(s: State, t: State, w: nat)
    requires |s.workers| == 2 == |t.workers| && w < 2 && t.workers == s.workers[w := t.workers[w]]
    ensures forall i: nat :: InFlight(t, i) <==> s.workers[1 - w] == Calling(i) || t.workers[w] == Calling(i)
    ensures forall i: nat :: InFlight(s, i) <==> s.workers[1 - w] == Calling(i) || s.workers[w] == Calling(i)
  {
    forall i: nat ensures InFlight(t, i) <==> s.workers[1 - w] == Calling(i) || t.workers[w] == Calling(i) {
      assert t.workers[1 - w] == s.workers[1 - w];
    }
  }

  lemma ExitKeepsInv(s: State, w: nat)
    requires Inv(s) && Enabled(s, TakeNext(w)) && s.queue == []
    ensures Inv(Apply(s, TakeNext(w)))
  {
    var t := Apply(s, TakeNext(w));
    FlightAfter(s, t, w);
    assert forall j: nat :: Taken(t, j) <==> Taken(s, j);
    forall j: nat | j < |t.targets| ensures RowShows(t, j) {
      assert RowShows(s, j);
    }
  }

  // What taking the next target does to the places and the rows, whichever branch runs.
  lemma TakenFromQueue(s: State, t: State, w: nat, i: nat)
    requires Inv(s) && Enabled(s, TakeNext(w)) && s.queue != [] && i == s.queue[0] && t == Apply(s, TakeNext(w))
    ensures i == NextTarget(s) && !Taken(s, i)
    ensures forall j: nat :: Taken(t, j) <==> Taken(s, j) || j == i
    ensures forall j: nat :: InFlight(t, j) <==> InFlight(s, j) || (j == i && !s.targets[i].directoryOnly)
    ensures Partition(t)
  {
    FlightAfter(s, t, w);
    assert t.queue == Positions(NextTarget(t), |t.targets|);
  }

  lemma TakeNextKeepsRows(s: State, t: State, w: nat, i: nat)
    requires Inv(s) && Enabled(s, TakeNext(w)) && s.queue != [] && i == s.queue[0] && t == Apply(s, TakeNext(w))
    ensures forall j: nat :: j < |t.targets| == |t.rows| ==> RowShows(t, j)
  {
    TakenFromQueue(s, t, w, i);
    assert forall j: nat :: j < |s.targets| && j != i ==> s.targets[j].id != s.targets[i].id;
    forall j: nat | j < |t.targets| == |t.rows| ensures RowShows(t, j) {
      assert RowShows(s, j);
    }
  }

  lemma TakeNextKeepsInv(s: State, w: nat)
    requires Inv(s) && Enabled(s, TakeNext(w))
    ensures Inv(Apply(s, TakeNext(w)))
  {
    if s.queue == [] {
      ExitKeepsInv(s, w);
    } else {
      var t := Apply(s, TakeNext(w));
      var i := s.queue[0];
      TakenFromQueue(s, t, w, i);
      TakeNextKeepsRows(s, t, w, i);
      assert CallsInv(t);
    }
  }

  lemma SettleKeepsInv(s: State, w: nat, confirmed: bool)
    requires Inv(s) && Enabled(s, Settle(w, confirmed))
    ensures Inv(Apply(s, Settle(w, confirmed)))
  {
    var t := Apply(s, Settle(w, confirmed));
    var i := s.workers[w].target;
    FlightAfter(s, t, w);
    assert InFlight(s, i) && Taken(s, i);
    assert forall j: nat :: Taken(t, j) <==> Taken(s, j);
    assert forall j: nat :: j < |s.targets| && j != i ==> s.targets[j].id != s.targets[i].id;
    forall j: nat | j < |t.targets| ensures RowShows(t, j) {
      assert RowShows(s, j);
    }
  }

  lemma MoveKeepsInv(s: State, m: Move)
    requires Inv(s) && Enabled(s, m) && (m.Click? ==> UniqueIds(m.servers))
    ensures Inv(Apply(s, m))
  {
    match m
    case Click(servers) => ClickKeepsInv(s, servers);
    case TakeNext(w) => TakeNextKeepsInv(s, w);
    case Settle(w, confirmed) => SettleKeepsInv(s, w, confirmed);
    case Finish =>
      var t := Apply(s, m);
      assert forall j: nat :: (Taken(t, j) <==> Taken(s, j)) && (InFlight(t, j) <==> InFlight(s, j));
      forall j: nat | j < |t.targets| ensures RowShows(t, j) {
        assert RowShows(s, j);
      }
  }

  // ---------- every run ----------

  ghost predicate IsRun(run: seq<State>, moves: seq<Move>) {
    && |run| == |moves| + 1 && run[0] == INITIAL
    && forall i :: 0 <= i < |moves| ==>
         && Enabled(run[i], moves[i]) && run[i + 1] == Apply(run[i], moves[i])
         && (moves[i].Click? ==> UniqueIds(moves[i].servers))
  }

  lemma {:induction false} RunKeepsInv(run: seq<State>, moves: seq<Move>, i: nat)
    requires IsRun(run, moves) && i < |run|
    ensures Inv(run[i])
  {
    if i == 0 {
      InitialInv();
    } else {
      RunKeepsInv(run, moves, i - 1);
      MoveKeepsInv(run[i - 1], moves[i - 1]);
    }
  }

  ghost predicate ExactlyOne(a: bool, b: bool, c: bool) { (a || b || c) && !(a && b) && !(a && c) && !(b && c) }

  // In every reachable state each target is queued, in flight or settled, and only one of them; at most two are in
  // flight; the updater was called once for every paired target taken so far and never for a directory-only one.
  lemma EveryTargetHasOnePlace(run: seq<State>, moves: seq<Move>, n: nat, i: nat)
    requires IsRun(run, moves) && n < |run| && i < |run[n].targets|
    ensures ExactlyOne(i in run[n].queue, InFlight(run[n], i), i in run[n].settled)
    ensures |set k: nat | k < |run[n].targets| && InFlight(run[n], k)| <= 2
    ensures multiset(run[n].calls)[i] == if i !in run[n].queue && !run[n].targets[i].directoryOnly then 1 else 0
  {
    RunKeepsInv(run, moves, n);
    var s := run[n];
    assert i in s.queue <==> i >= NextTarget(s) by {
      if i >= NextTarget(s) {
        assert s.queue[i - NextTarget(s)] == i;
      }
    }
    assert Taken(s, i) <==> i < NextTarget(s);
    AtMostTwo(s);
    DistinctCountsOnce(s.calls, i);
  }

  lemma AtMostTwo(s: State)
    requires |s.workers| == 2
    ensures |set k: nat | k < |s.targets| && InFlight(s, k)| <= 2
  {
    var flying := set k: nat | k < |s.targets| && InFlight(s, k);
    var a := if s.workers[0].Calling? then {s.workers[0].target} else {};
    var b := if s.workers[1].Calling? then {s.workers[1].target} else {};
    assert flying <= a + b;
    SubsetIsSmaller(flying, a + b);
  }

  lemma SubsetIsSmaller(a: set<nat>, b: set<nat>)
    requires a <= b
    ensures |a| <= |b|
  {
    assert b == a + (b - a);
  }

  lemma {:induction false} DistinctCountsOnce(calls: seq<nat>, i: nat)
    requires forall j, k :: 0 <= j < k < |calls| ==> calls[j] != calls[k]
    ensures multiset(calls)[i] == if i in calls then 1 else 0
  {
    if calls != [] {
      var n := |calls| - 1;
      DistinctCountsOnce(calls[..n], i);
      assert calls == calls[..n] + [calls[n]];
    }
  }

  // A published outcome is never lost: until a new job starts it stays settled, and its row keeps showing it.
  lemma OutcomesStay(s: State, m: Move, i: nat)
    requires Inv(s) && Enabled(s, m) && (m.Click? ==> s.busy) && i in s.settled
    ensures i in Apply(s, m).settled && Apply(s, m).settled[i] == s.settled[i]
    ensures i < |Apply(s, m).rows| && Apply(s, m).rows[i] == Row(s.targets[i].id, s.settled[i])
  {
    var t := Apply(s, m);
    if !m.Click? {
      MoveKeepsInv(s, m);
    }
    if m.TakeNext? && s.queue != [] {
      assert Taken(s, i) && s.queue[0] == NextTarget(s);
    }
    assert RowShows(t, i);
  }

  // A click while a job runs changes nothing.
  lemma SecondClickChangesNothing(s: State, servers: seq<Server>)
    requires s.busy
    ensures Apply(s, Click(servers)) == s
  {
  }

  // Once busy is false again, every row of the job shows updated, unknown or skipped, and skipped exactly for the
  // computers that are not paired.
  lemma FinishedJobHasOnlyOutcomes(run: seq<State>, moves: seq<Move>, n: nat, i: nat)
    requires IsRun(run, moves) && n < |run| && !run[n].busy && i < |run[n].targets|
    ensures i < |run[n].rows| && run[n].rows[i].id == run[n].targets[i].id
    ensures run[n].rows[i].status in {Updated, Unknown, Skipped}
    ensures run[n].rows[i].status == Skipped <==> run[n].targets[i].directoryOnly
  {
    RunKeepsInv(run, moves, n);
    var s := run[n];
    assert s.workers[0].Exited?;
    assert s.queue == [] && Taken(s, i) && !InFlight(s, i);
    assert RowShows(s, i);
  }

  function WorkerWork(w: Worker): nat { match w case AtQueue => 1 case Calling(_) => 2 case Exited => 0 }

  function Work(s: State): nat {
    if |s.workers| == 2 then
      (if s.busy then 1 else 0) + 3 * |s.queue| + WorkerWork(s.workers[0]) + WorkerWork(s.workers[1])
    else 0
  }

  // While a job runs some worker can go on, every move but a click brings it nearer to its end, and so the job ends
  // once its calls have settled.
  lemma AJobEnds(s: State)
    requires Inv(s) && s.busy
    ensures exists m :: Enabled(s, m) && !m.Click?
    ensures forall m :: Enabled(s, m) && !m.Click? ==> Work(Apply(s, m)) < Work(s)
  {
    if s.workers == [Exited, Exited] {
      assert Enabled(s, Finish);
    } else {
      var w := if s.workers[0].Exited? then 1 else 0;
      assert !s.workers[w].Exited?;
      if s.workers[w].Calling? {
        assert InFlight(s, s.workers[w].target) && Taken(s, s.workers[w].target);
        assert Enabled(s, Settle(w, true));
      } else {
        assert Enabled(s, TakeNext(w));
      }
    }
  }
}
