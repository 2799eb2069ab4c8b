/** native_connections.rs `run_json_command`: one child process, three pipes, two draining threads.

    A state is the child's remaining script, the pipes' contents, and where each thread stands. A step is one
    thread's move; every interleaving is allowed. Time is a poll budget. Only the child holds the other pipe ends. */
module PipeRunner {
  import opened Text

  type Bytes = seq<int>

  // What a child can do. A read takes what is there, up to `limit`; a write blocks until all of it is in the pipe.
  datatype Op =
    | ReadInput(limit: nat)
    | WriteOut(bytes: Bytes)
    | WriteErr(bytes: Bytes)

  datatype Child = Alive(script: seq<Op>) | Ended | Killed

  // The calling thread.
  datatype Main =
    | Feeding(rest: Bytes)      // write_all
    | Waiting(polls: nat)       // wait_bounded
    | Stopping(wrote: bool)     // kill
    | Reaping(wrote: bool)      // wait
    | Joining(finished: bool, wrote: bool)
    | Done(finished: bool, wrote: bool)

  // drain_bounded: what was captured, and whether the pipe has ended. `drained` is everything read.
  datatype Reader = Reader(captured: Bytes, ended: bool, drained: Bytes)

  datatype Pipes = Pipes(input: Bytes, inputOpen: bool, out: Bytes, err: Bytes)

  datatype State = State(child: Child, pipes: Pipes, main: Main, outReader: Reader, errReader: Reader)

  datatype Limits = Limits(capacity: nat, cap: nat, polls: nat)

  function First(n: nat, s: Bytes): (r: Bytes)
    ensures r <= s && |r| == Min(n, |s|)
  {
    s[..Min(n, |s|)]
  }

  // ---------- what the child writes in all ----------

  function OutputOf(script: seq<Op>): Bytes {
    if script == [] then [] else (if script[0].WriteOut? then script[0].bytes else []) + OutputOf(script[1..])
  }

  function ErrorsOf(script: seq<Op>): Bytes {
    if script == [] then [] else (if script[0].WriteErr? then script[0].bytes else []) + ErrorsOf(script[1..])
  }

  function PendingOut(c: Child): Bytes { if c.Alive? then OutputOf(c.script) else [] }

  function PendingErr(c: Child): Bytes { if c.Alive? then ErrorsOf(c.script) else [] }

  // With no input, stdin is the null device: empty and closed.
  ghost predicate Init(s: State, l: Limits, script: seq<Op>, input: Bytes, piped: bool) {
    && s.child == Alive(script)
    && s.pipes == Pipes([], piped, [], [])
    && s.main == (if piped then Feeding(input) else Waiting(l.polls))
    && s.outReader == Reader([], false, []) && s.errReader == Reader([], false, [])
  }

  // ---------- the steps ----------

  // One thread's move; `n` is how many bytes it moves.
  datatype Move =
    | ChildMoves(n: nat)
    | DrainOut(n: nat)
    | DrainErr(n: nat)
    | EndOut
    | EndErr
    | Feed(n: nat)
    | CloseInput
    | BrokenPipe
    | SeeExit
    | PollAgain
    | GiveUp              // the deadline has passed, or try_wait failed
    | Kill(works: bool)
    | Reap
    | Join

  predicate ChildCan(l: Limits, p: Pipes, script: seq<Op>, n: nat) {
    script == [] ||
    match script[0]
    case ReadInput(limit) =>
      if p.input != [] then n <= Min(limit, |p.input|) && (limit > 0 ==> n > 0) else limit == 0 || !p.inputOpen
    case WriteOut(bytes) => bytes == [] || (0 < n <= |bytes| && |p.out| + n <= l.capacity)
    case WriteErr(bytes) => bytes == [] || (0 < n <= |bytes| && |p.err| + n <= l.capacity)
  }

  predicate Enabled(l: Limits, s: State, m: Move) {
    match m
    case ChildMoves(n) => s.child.Alive? && ChildCan(l, s.pipes, s.child.script, n)
    case DrainOut(n) => !s.outReader.ended && 0 < n <= |s.pipes.out|
    case DrainErr(n) => !s.errReader.ended && 0 < n <= |s.pipes.err|
    case EndOut => !s.outReader.ended && s.pipes.out == [] && !s.child.Alive?
    case EndErr => !s.errReader.ended && s.pipes.err == [] && !s.child.Alive?
    case Feed(n) => s.main.Feeding? && s.child.Alive? && 0 < n <= |s.main.rest| && |s.pipes.input| + n <= l.capacity
    case CloseInput => s.main.Feeding? && s.main.rest == []
    case BrokenPipe => s.main.Feeding? && s.main.rest != [] && !s.child.Alive?
    case SeeExit => s.main.Waiting? && s.child.Ended?
    case PollAgain => s.main.Waiting? && s.child.Alive? && s.main.polls > 0
    case GiveUp => s.main.Waiting?
    case Kill(works) => s.main.Stopping? && (works ==> s.child.Alive?)
    case Reap => s.main.Reaping? && !s.child.Alive?
    case Join => s.main.Joining? && s.outReader.ended && s.errReader.ended
  }

  // Take a chunk: keep the bytes that still fit under the cap, drop the others.
  function Drain(r: Reader, cap: nat, chunk: Bytes): Reader {
    var room := if |r.captured| <= cap then cap - |r.captured| else 0;
    Reader(r.captured + First(room, chunk), false, r.drained + chunk)
  }

  function AfterChild(s: State, n: nat): State
    requires s.child.Alive?
  {
    var script := s.child.script;
    if script == [] then s.(child := Ended) else
    var rest := script[1..];
    match script[0]
    case ReadInput(_) =>
      s.(child := Alive(rest), pipes := s.pipes.(input := if n <= |s.pipes.input| then s.pipes.input[n..] else []))
    case WriteOut(bytes) =>
      if bytes == [] || n > |bytes| then s.(child := Alive(rest))
      else s.(child := Alive([WriteOut(bytes[n..])] + rest), pipes := s.pipes.(out := s.pipes.out + bytes[..n]))
    case WriteErr(bytes) =>
      if bytes == [] || n > |bytes| then s.(child := Alive(rest))
      else s.(child := Alive([WriteErr(bytes[n..])] + rest), pipes := s.pipes.(err := s.pipes.err + bytes[..n]))
  }

  function Apply(l: Limits, s: State, m: Move): State
    requires Enabled(l, s, m)
  {
    match m
    case ChildMoves(n) => AfterChild(s, n)
    case DrainOut(n) =>
      s.(outReader := Drain(s.outReader, l.cap, s.pipes.out[..n]), pipes := s.pipes.(out := s.pipes.out[n..]))
    case DrainErr(n) =>
      s.(errReader := Drain(s.errReader, l.cap, s.pipes.err[..n]), pipes := s.pipes.(err := s.pipes.err[n..]))
    case EndOut => s.(outReader := s.outReader.(ended := true))
    case EndErr => s.(errReader := s.errReader.(ended := true))
    case Feed(n) => s.(main := Feeding(s.main.rest[n..]), pipes := s.pipes.(input := s.pipes.input + s.main.rest[..n]))
    case CloseInput => s.(main := Waiting(l.polls), pipes := s.pipes.(inputOpen := false))
    case BrokenPipe => s.(main := Stopping(false), pipes := s.pipes.(inputOpen := false))
    case SeeExit => s.(main := Joining(true, true))
    case PollAgain => s.(main := Waiting(s.main.polls - 1))
    case GiveUp => s.(main := Stopping(true))
    case Kill(works) => s.(main := Reaping(s.main.wrote), child := if works then Killed else s.child)
    case Reap => s.(main := Joining(false, s.main.wrote))
    case Join => s.(main := Done(s.main.finished, s.main.wrote))
  }

  // ---------- the invariant ----------

  // Every byte the child has written or will write is drained, in the pipe or still to come, in order;
  // a killed child's last bytes never come.
  ghost predicate StreamInv(l: Limits, r: Reader, pipe: Bytes, pending: Bytes, total: Bytes, child: Child) {
    && |pipe| <= l.capacity
    && (!child.Killed? ==> r.drained + pipe + pending == total)
    && r.drained + pipe <= total
    && r.captured == First(l.cap, r.drained)
    && (r.ended ==> pipe == [] && !child.Alive?)
  }

  ghost predicate ControlInv(l: Limits, s: State) {
    && (s.main.Feeding? <==> s.pipes.inputOpen)
    && |s.pipes.input| <= l.capacity
    && (s.child.Killed? ==> s.main.Reaping? || s.main.Joining? || s.main.Done?)
    && (s.main.Joining? || s.main.Done? ==> !s.child.Alive? && (s.main.finished ==> s.child.Ended? && s.main.wrote))
    && (s.main.Done? ==> s.outReader.ended && s.errReader.ended)
  }

  ghost predicate Inv(l: Limits, s: State, script: seq<Op>) {
    && ControlInv(l, s)
    && StreamInv(l, s.outReader, s.pipes.out, PendingOut(s.child), OutputOf(script), s.child)
    && StreamInv(l, s.errReader, s.pipes.err, PendingErr(s.child), ErrorsOf(script), s.child)
  }

  lemma InitEstablishesInv(s: State, l: Limits, script: seq<Op>, input: Bytes, piped: bool)
    requires Init(s, l, script, input, piped)
    ensures Inv(l, s, script)
  {
    assert [] + OutputOf(script) == OutputOf(script);
    assert [] + ErrorsOf(script) == ErrorsOf(script);
  }

  lemma DrainKeepsStream(l: Limits, r: Reader, pipe: Bytes, pending: Bytes, total: Bytes, child: Child, n: nat)
    requires StreamInv(l, r, pipe, pending, total, child) && !r.ended && n <= |pipe|
    ensures StreamInv(l, Drain(r, l.cap, pipe[..n]), pipe[n..], pending, total, child)
  {
    var r' := Drain(r, l.cap, pipe[..n]);
    assert r'.drained + pipe[n..] == r.drained + pipe;
    assert r'.captured == First(l.cap, r'.drained);
  }

  lemma WriteKeepsStream(l: Limits, r: Reader, pipe: Bytes, chunk: Bytes, pending: Bytes, total: Bytes, a: Child, b: Child)
    requires a.Alive? && b.Alive? && |pipe| + |chunk| <= l.capacity
    requires StreamInv(l, r, pipe, chunk + pending, total, a)
    ensures StreamInv(l, r, pipe + chunk, pending, total, b)
  {
    assert r.drained + (pipe + chunk) + pending == r.drained + pipe + (chunk + pending);
  }

  // Only what is pending matters to a stream while the child lives or has ended by itself.
  lemma ChildChangeKeepsStream(l: Limits, r: Reader, pipe: Bytes, pending: Bytes, total: Bytes, a: Child, b: Child)
    requires a.Alive? && StreamInv(l, r, pipe, pending, total, a)
    ensures StreamInv(l, r, pipe, pending, total, b)
    ensures b.Killed? ==> StreamInv(l, r, pipe, [], total, b)
  {
  }

  lemma ScriptOfCons(op: Op, rest: seq<Op>)
    ensures OutputOf([op] + rest) == (if op.WriteOut? then op.bytes else []) + OutputOf(rest)
    ensures ErrorsOf([op] + rest) == (if op.WriteErr? then op.bytes else []) + ErrorsOf(rest)
  {
    assert ([op] + rest)[1..] == rest;
  }

  // Writing the first n bytes of an operation leaves the rest of what the script writes.
  lemma PartialWrite(script: seq<Op>, n: nat)
    requires script != [] && script[0].WriteOut? && n <= |script[0].bytes|
    ensures OutputOf(script) == script[0].bytes[..n] + OutputOf([WriteOut(script[0].bytes[n..])] + script[1..])
    ensures ErrorsOf([WriteOut(script[0].bytes[n..])] + script[1..]) == ErrorsOf(script)
  {
    var bytes, rest := script[0].bytes, script[1..];
    assert script == [script[0]] + rest;
    ScriptOfCons(script[0], rest);
    ScriptOfCons(WriteOut(bytes[n..]), rest);
    assert bytes == bytes[..n] + bytes[n..];
    assert bytes + OutputOf(rest) == bytes[..n] + (bytes[n..] + OutputOf(rest));
  }

  lemma PartialErrorWrite(script: seq<Op>, n: nat)
    requires script != [] && script[0].WriteErr? && n <= |script[0].bytes|
    ensures ErrorsOf(script) == script[0].bytes[..n] + ErrorsOf([WriteErr(script[0].bytes[n..])] + script[1..])
    ensures OutputOf([WriteErr(script[0].bytes[n..])] + script[1..]) == OutputOf(script)
  {
    var bytes, rest := script[0].bytes, script[1..];
    assert script == [script[0]] + rest;
    ScriptOfCons(script[0], rest);
    ScriptOfCons(WriteErr(bytes[n..]), rest);
    assert bytes == bytes[..n] + bytes[n..];
    assert bytes + ErrorsOf(rest) == bytes[..n] + (bytes[n..] + ErrorsOf(rest));
  }

  lemma ChildMoveKeepsInv(l: Limits, s: State, n: nat, total: seq<Op>)
    requires Inv(l, s, total) && s.child.Alive? && ChildCan(l, s.pipes, s.child.script, n)
    ensures Inv(l, AfterChild(s, n), total)
  {
    var t := AfterChild(s, n);
    var script := s.child.script;
    if script != [] && script[0].WriteOut? && script[0].bytes != [] {
      PartialWrite(script, n);
      WriteKeepsStream(l, s.outReader, s.pipes.out, script[0].bytes[..n], PendingOut(t.child), OutputOf(total), s.child, t.child);
      ChildChangeKeepsStream(l, s.errReader, s.pipes.err, PendingErr(s.child), ErrorsOf(total), s.child, t.child);
    } else if script != [] && script[0].WriteErr? && script[0].bytes != [] {
      PartialErrorWrite(script, n);
      WriteKeepsStream(l, s.errReader, s.pipes.err, script[0].bytes[..n], PendingErr(t.child), ErrorsOf(total), s.child, t.child);
      ChildChangeKeepsStream(l, s.outReader, s.pipes.out, PendingOut(s.child), OutputOf(total), s.child, t.child);
    } else {
      assert PendingOut(t.child) == PendingOut(s.child) && PendingErr(t.child) == PendingErr(s.child);
      ChildChangeKeepsStream(l, s.outReader, s.pipes.out, PendingOut(s.child), OutputOf(total), s.child, t.child);
      ChildChangeKeepsStream(l, s.errReader, s.pipes.err, PendingErr(s.child), ErrorsOf(total), s.child, t.child);
    }
  }

  lemma MoveKeepsInv(l: Limits, s: State, m: Move, script: seq<Op>)
    requires Inv(l, s, script) && Enabled(l, s, m)
    ensures Inv(l, Apply(l, s, m), script)
  {
    match m
    case ChildMoves(n) => ChildMoveKeepsInv(l, s, n, script);
    case DrainOut(n) =>
      DrainKeepsStream(l, s.outReader, s.pipes.out, PendingOut(s.child), OutputOf(script), s.child, n);
    case DrainErr(n) =>
      DrainKeepsStream(l, s.errReader, s.pipes.err, PendingErr(s.child), ErrorsOf(script), s.child, n);
    case Kill(works) =>
      if works {
        ChildChangeKeepsStream(l, s.outReader, s.pipes.out, PendingOut(s.child), OutputOf(script), s.child, Killed);
        ChildChangeKeepsStream(l, s.errReader, s.pipes.err, PendingErr(s.child), ErrorsOf(script), s.child, Killed);
      }
    case _ =>
  }

  // ---------- no deadlock ----------

  // Until the caller has its answer, somebody can move.
  lemma SomeMoveIsEnabled(l: Limits, s: State, script: seq<Op>) returns (m: Move)
    requires Inv(l, s, script) && l.capacity >= 1 && !s.main.Done?
    ensures Enabled(l, s, m)
  {
    if s.pipes.out != [] {
      m := DrainOut(1);
    } else if s.pipes.err != [] {
      m := DrainErr(1);
    } else if s.child.Alive? {
      m := MoveWhileAlive(l, s);
    } else if !s.outReader.ended {
      m := EndOut;
    } else if !s.errReader.ended {
      m := EndErr;
    } else {
      m := match s.main
           case Feeding(rest) => if rest == [] then CloseInput else BrokenPipe
           case Waiting(_) => GiveUp
           case Stopping(_) => Kill(false)
           case Reaping(_) => Reap
           case Joining(_, _) => Join;
    }
  }

  // With the output pipes empty, the child moves, or it waits for input and the caller can feed it.
  lemma MoveWhileAlive(l: Limits, s: State) returns (m: Move)
    requires ControlInv(l, s) && l.capacity >= 1 && s.child.Alive? && s.pipes.out == [] && s.pipes.err == []
    ensures Enabled(l, s, m)
  {
    var script := s.child.script;
    m := ChildMoves(1);
    if script != [] && script[0].ReadInput? {
      if s.pipes.input != [] || script[0].limit == 0 || !s.pipes.inputOpen {
        m := ChildMoves(Min(script[0].limit, |s.pipes.input|));
      } else {
        m := if s.main.rest == [] then CloseInput else Feed(1);
      }
    }
  }

  // ---------- termination ----------

  // Every byte moves at most twice, every operation ends once, every thread advances.
  function ScriptWork(script: seq<Op>): nat {
    if script == [] then 0
    else (match script[0]
          case ReadInput(_) => 1
          case WriteOut(b) => 1 + 2 * |b|
          case WriteErr(b) => 1 + 2 * |b|) + ScriptWork(script[1..])
  }

  function MainWork(l: Limits, m: Main): nat {
    match m
    case Feeding(rest) => 2 * |rest| + l.polls + 5
    case Waiting(polls) => polls + 4
    case Stopping(_) => 3
    case Reaping(_) => 2
    case Joining(_, _) => 1
    case Done(_, _) => 0
  }

  function Work(l: Limits, s: State): nat {
    (if s.child.Alive? then 1 + ScriptWork(s.child.script) else 0)
    + |s.pipes.input| + |s.pipes.out| + |s.pipes.err|
    + MainWork(l, s.main)
    + (if s.outReader.ended then 0 else 1) + (if s.errReader.ended then 0 else 1)
  }

  // Every move uses up work, so no run goes on forever.
  lemma EveryMoveUsesWork(l: Limits, s: State, m: Move)
    requires Enabled(l, s, m)
    ensures Work(l, Apply(l, s, m)) < Work(l, s)
  {
    if m.ChildMoves? && s.child.script != [] {
      var rest := s.child.script[1..];
      var t := Apply(l, s, m);
      assert t.child.script == rest || t.child.script[1..] == rest;
    }
  }

  // ---------- every run ----------

  ghost predicate IsRun(l: Limits, run: seq<State>, moves: seq<Move>) {
    && |run| == |moves| + 1
    && forall i :: 0 <= i < |moves| ==> Enabled(l, run[i], moves[i]) && run[i + 1] == Apply(l, run[i], moves[i])
  }

  lemma {:induction false} RunKeepsInv(l: Limits, run: seq<State>, moves: seq<Move>, script: seq<Op>, input: Bytes, piped: bool, i: nat)
    requires IsRun(l, run, moves) && Init(run[0], l, script, input, piped) && i < |run|
    ensures Inv(l, run[i], script) && i + Work(l, run[i]) <= Work(l, run[0])
  {
    if i == 0 {
      InitEstablishesInv(run[0], l, script, input, piped);
    } else {
      RunKeepsInv(l, run, moves, script, input, piped, i - 1);
      MoveKeepsInv(l, run[i - 1], moves[i - 1], script);
      EveryMoveUsesWork(l, run[i - 1], moves[i - 1]);
    }
  }

  // Deadlock freedom: no interleaving makes more moves than the initial work, and a run in which nobody can move
  // any more has delivered its answer.
  lemma NoDeadlock(l: Limits, run: seq<State>, moves: seq<Move>, script: seq<Op>, input: Bytes, piped: bool)
    requires l.capacity >= 1 && IsRun(l, run, moves) && Init(run[0], l, script, input, piped)
    ensures |moves| <= Work(l, run[0])
    ensures (forall m :: !Enabled(l, run[|moves|], m)) <==> run[|moves|].main.Done?
  {
    var s := run[|moves|];
    RunKeepsInv(l, run, moves, script, input, piped, |moves|);
    if !s.main.Done? {
      var m := SomeMoveIsEnabled(l, s, script);
      assert Enabled(l, s, m);
    }
  }

  // What the caller gets: the first cap bytes of all the child wrote when it ended by itself, and in every case a
  // prefix of what it would have written; an answer counted as finished comes from a child that ended by itself
  // after its whole input was written.
  lemma CapturedOutputIsExact(l: Limits, run: seq<State>, moves: seq<Move>, script: seq<Op>, input: Bytes, piped: bool)
    requires IsRun(l, run, moves) && Init(run[0], l, script, input, piped) && run[|moves|].main.Done?
    ensures
      var s := run[|moves|];
      && (s.main.finished ==> s.child.Ended? && s.main.wrote)
      && (s.child.Ended? ==>
            && s.outReader.captured == First(l.cap, OutputOf(script))
            && s.errReader.captured == First(l.cap, ErrorsOf(script)))
      && s.outReader.captured <= OutputOf(script) && s.errReader.captured <= ErrorsOf(script)
  {
    RunKeepsInv(l, run, moves, script, input, piped, |moves|);
    var s := run[|moves|];
    assert s.outReader.drained + s.pipes.out + PendingOut(s.child) == s.outReader.drained;
    assert s.errReader.drained + s.pipes.err + PendingErr(s.child) == s.errReader.drained;
  }
}
