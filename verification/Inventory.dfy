/** lifecycle_service.rs: which sessions must survive a restart, and when they have. */
module Inventory {
  import opened Wrappers

  datatype Session = Session(id: string, pid: Option<nat>, exited: bool, unreachable: bool, endedByKind: string)

  datatype Readiness = Reachable | Ended | Unreachable

  predicate IsLive(s: Session) { !s.exited && s.pid != Some(0) && s.id != "" }

  function LiveSessionIds(sessions: seq<Session>): set<string> {
    set s | s in sessions && IsLive(s) :: s.id
  }

  function SessionReadiness(s: Session): Readiness {
    if s.exited || s.endedByKind == "user" then Ended
    else if s.unreachable then Unreachable
    else Reachable
  }

  // Collecting pairs into a map: a later entry with the same id replaces an earlier one.
  function CurrentReadiness(sessions: seq<Session>): map<string, Readiness> {
    if sessions == [] then map[]
    else
      var front := CurrentReadiness(sessions[..|sessions| - 1]);
      var last := sessions[|sessions| - 1];
      if last.id == "" then front else front[last.id := SessionReadiness(last)]
  }

  function NotReady(baseline: set<string>, current: map<string, Readiness>): set<string> {
    set id | id in baseline && (id !in current || current[id].Unreachable?)
  }

  // Entry i is what this response says last about its id.
  ghost predicate LastWord(sessions: seq<Session>, i: nat) {
    i < |sessions| && forall j :: i < j < |sessions| ==> sessions[j].id != sessions[i].id
  }

  ghost predicate Accounted(id: string, sessions: seq<Session>) {
    exists i: nat :: LastWord(sessions, i) && sessions[i].id == id && !SessionReadiness(sessions[i]).Unreachable?
  }

  // Every baseline session is reported reachable or deliberately ended, all in one response.
  ghost predicate AllAccounted(baseline: set<string>, sessions: seq<Session>) {
    forall id :: id in baseline ==> Accounted(id, sessions)
  }

  lemma {:induction false} CurrentIsLastWord(sessions: seq<Session>, id: string)
    requires id != ""
    ensures id in CurrentReadiness(sessions) <==> exists i: nat :: LastWord(sessions, i) && sessions[i].id == id
    ensures forall i: nat :: LastWord(sessions, i) && sessions[i].id == id ==>
                               id in CurrentReadiness(sessions) && CurrentReadiness(sessions)[id] == SessionReadiness(sessions[i])
  {
    if sessions != [] {
      var n := |sessions| - 1;
      var front := sessions[..n];
      CurrentIsLastWord(front, id);
      if sessions[n].id == id {
        assert LastWord(sessions, n);
      } else {
        assert forall i: nat :: i < n ==> sessions[i] == front[i];
        assert forall i: nat :: LastWord(front, i) && front[i].id == id ==> LastWord(sessions, i);
        assert forall i: nat :: LastWord(sessions, i) && sessions[i].id == id ==> LastWord(front, i);
      }
    }
  }

  // The computed list of missing sessions is empty exactly when every baseline session is accounted for.
  lemma NothingMissingMeansAccounted(baseline: set<string>, sessions: seq<Session>)
    requires "" !in baseline
    ensures NotReady(baseline, CurrentReadiness(sessions)) == {} <==> AllAccounted(baseline, sessions)
    ensures forall id :: id in baseline ==> (id in NotReady(baseline, CurrentReadiness(sessions)) <==> !Accounted(id, sessions))
  {
    var current := CurrentReadiness(sessions);
    forall id | id in baseline ensures id in NotReady(baseline, current) <==> !Accounted(id, sessions) {
      CurrentIsLastWord(sessions, id);
    }
    if NotReady(baseline, current) != {} {
      var id :| id in NotReady(baseline, current);
      assert !Accounted(id, sessions);
    }
  }

  // Sessions that were not in the baseline, and earlier entries of a repeated id, never decide readiness;
  // every session an inventory lists as live is itself accounted for while it stays reachable.
  lemma LiveReachableInventoryIsAccounted(sessions: seq<Session>)
    requires forall i, j :: 0 <= i < j < |sessions| ==> sessions[i].id != sessions[j].id
    requires forall i :: 0 <= i < |sessions| && IsLive(sessions[i]) ==> !sessions[i].unreachable
    ensures AllAccounted(LiveSessionIds(sessions), sessions)
  {
    forall id | id in LiveSessionIds(sessions) ensures Accounted(id, sessions) {
      var s :| s in sessions && IsLive(s) && s.id == id;
      var i: nat :| i < |sessions| && sessions[i] == s;
      assert LastWord(sessions, i);
    }
  }
}
