/** App.tsx `activeManagerTabs`: which open sessions belong to the active manager. */
module ManagerTabs {
  import opened Wrappers

  datatype Session = Session(id: string, details: string)

  // effectiveParentId: any function; an empty id is no parent.
  type ParentOf = Session -> Option<string>

  function ParentId(s: Session, parentOf: ParentOf): Option<string> {
    match parentOf(s)
    case Some(id) => if id == "" then None else Some(id)
    case None => None
  }

  // sessions.find by id.
  function FindById(sessions: seq<Session>, id: string): Option<Session> {
    if sessions == [] then None
    else if sessions[0].id == id then Some(sessions[0])
    else FindById(sessions[1..], id)
  }

  function Ids(sessions: seq<Session>): set<string> { set s | s in sessions :: s.id }

  // The session k parent steps above s, through listed sessions only.
  function Ancestor(sessions: seq<Session>, parentOf: ParentOf, s: Session, k: nat): Option<Session> {
    if k == 0 then Some(s)
    else
      match Ancestor(sessions, parentOf, s, k - 1)
      case None => None
      case Some(a) =>
        match ParentId(a, parentOf)
        case None => None
        case Some(id) => FindById(sessions, id)
  }

  ghost predicate HasParent(sessions: seq<Session>, parentOf: ParentOf, s: Session, k: nat, manager: string) {
    Ancestor(sessions, parentOf, s, k).Some? && ParentId(Ancestor(sessions, parentOf, s, k).value, parentOf) == Some(manager)
  }

  // The manager is the session itself, or the parent of the session or of one of its ancestors.
  ghost predicate Under(sessions: seq<Session>, parentOf: ParentOf, s: Session, manager: string) {
    s.id == manager || exists k: nat :: HasParent(sessions, parentOf, s, k, manager)
  }

  lemma {:induction false} FoundIsListed(sessions: seq<Session>, id: string)
    ensures FindById(sessions, id).Some? <==> id in Ids(sessions)
    ensures FindById(sessions, id).Some? ==> FindById(sessions, id).value.id == id
  {
    if sessions != [] {
      FoundIsListed(sessions[1..], id);
      assert Ids(sessions) == {sessions[0].id} + Ids(sessions[1..]);
    }
  }

  ghost predicate LeadsInto(s: Session, parentOf: ParentOf, seen: set<string>) {
    ParentId(s, parentOf).None? || ParentId(s, parentOf).value in seen
  }

  // Whoever a seen id names has no parent or a seen one, except where the walk stands.
  ghost predicate ClosedExcept(sessions: seq<Session>, parentOf: ParentOf, seen: set<string>, at: Option<Session>) {
    forall id :: id in seen ==>
      || FindById(sessions, id).None?
      || FindById(sessions, id) == at
      || LeadsInto(FindById(sessions, id).value, parentOf, seen)
  }

  lemma {:induction false} NeverLeavesClosedSet(sessions: seq<Session>, parentOf: ParentOf, s: Session, seen: set<string>, k: nat)
    requires ClosedExcept(sessions, parentOf, seen, None) && LeadsInto(s, parentOf, seen)
    ensures Ancestor(sessions, parentOf, s, k).Some? ==> LeadsInto(Ancestor(sessions, parentOf, s, k).value, parentOf, seen)
  {
    if k > 0 {
      NeverLeavesClosedSet(sessions, parentOf, s, seen, k - 1);
    }
  }

  lemma StepKeepsClosed(sessions: seq<Session>, parentOf: ParentOf, seen: set<string>, at: Session, id: string)
    requires ClosedExcept(sessions, parentOf, seen, Some(at)) && ParentId(at, parentOf) == Some(id)
    ensures ClosedExcept(sessions, parentOf, seen + {id}, FindById(sessions, id))
  {
  }

  lemma NotUnder(sessions: seq<Session>, parentOf: ParentOf, session: Session, manager: string, seen: set<string>)
    requires session.id != manager && manager !in seen
    requires ClosedExcept(sessions, parentOf, seen, None) && LeadsInto(session, parentOf, seen)
    ensures !Under(sessions, parentOf, session, manager)
  {
    forall k: nat ensures !HasParent(sessions, parentOf, session, k, manager) {
      NeverLeavesClosedSet(sessions, parentOf, session, seen, k);
    }
  }

  lemma OneFewer(ids: set<string>, seen: set<string>, id: string)
    requires id in ids && id !in seen
    ensures |ids - (seen + {id})| < |ids - seen|
  {
    assert ids - seen == (ids - (seen + {id})) + {id};
  }

  // Where the walk stands after `steps` parent steps.
  ghost predicate Walking(sessions: seq<Session>, parentOf: ParentOf, session: Session, manager: string,
                          seen: set<string>, current: Option<Session>, steps: nat) {
    && (current.Some? ==> Ancestor(sessions, parentOf, session, steps) == current && seen <= Ids(sessions))
    && manager !in seen
    && ClosedExcept(sessions, parentOf, seen, current)
    && (current == Some(session) || LeadsInto(session, parentOf, seen))
  }

  function StepsLeft(sessions: seq<Session>, seen: set<string>, current: Option<Session>): nat {
    if current.Some? then |Ids(sessions) - seen| + 1 else 0
  }

  lemma WalkGoesOn(sessions: seq<Session>, parentOf: ParentOf, session: Session, manager: string,
                   seen: set<string>, current: Session, steps: nat, id: string)
    requires Walking(sessions, parentOf, session, manager, seen, Some(current), steps)
    requires ParentId(current, parentOf) == Some(id) && id !in seen && id != manager
    ensures Walking(sessions, parentOf, session, manager, seen + {id}, FindById(sessions, id), steps + 1)
    ensures StepsLeft(sessions, seen + {id}, FindById(sessions, id)) < StepsLeft(sessions, seen, Some(current))
  {
    StepKeepsClosed(sessions, parentOf, seen, current, id);
    FoundIsListed(sessions, id);
    if id in Ids(sessions) {
      OneFewer(Ids(sessions), seen, id);
    }
  }

  // The walk stops on every parent graph, cyclic ones and ones with missing sessions included, and finds exactly
  // the sessions under the manager.
  method IsUnderManager(sessions: seq<Session>, parentOf: ParentOf, session: Session, manager: string) returns (r: bool)
    requires manager != ""
    ensures r <==> Under(sessions, parentOf, session, manager)
  {
    if session.id == manager { return true; }
    var seen: set<string> := {};
    var current := Some(session);
    ghost var steps: nat := 0;
    while current.Some?
      invariant Walking(sessions, parentOf, session, manager, seen, current, steps)
      decreases StepsLeft(sessions, seen, current)
    {
      var parentId := ParentId(current.value, parentOf);
      if parentId.None? || parentId.value in seen {
        NotUnder(sessions, parentOf, session, manager, seen);
        return false;
      }
      if parentId.value == manager {
        assert HasParent(sessions, parentOf, session, steps, manager);
        return true;
      }
      WalkGoesOn(sessions, parentOf, session, manager, seen, current.value, steps, parentId.value);
      seen := seen + {parentId.value};
      steps := steps + 1;
      current := FindById(sessions, parentId.value);
    }
    NotUnder(sessions, parentOf, session, manager, seen);
    r := false;
  }

  // The tabs shown: the open sessions under the manager, in their order.
  ghost function TabsOf(sessions: seq<Session>, parentOf: ParentOf, open: seq<Session>, manager: string): seq<Session> {
    if open == [] then []
    else
      var last := open[|open| - 1];
      TabsOf(sessions, parentOf, open[..|open| - 1], manager)
      + if Under(sessions, parentOf, last, manager) then [last] else []
  }

  method ActiveManagerTabs(sessions: seq<Session>, parentOf: ParentOf, open: seq<Session>, manager: Option<string>)
    returns (tabs: seq<Session>)
    ensures tabs == if manager.None? || manager.value == "" then [] else TabsOf(sessions, parentOf, open, manager.value)
  {
    tabs := [];
    if manager.None? || manager.value == "" { return; }
    for i := 0 to |open|
      invariant tabs == TabsOf(sessions, parentOf, open[..i], manager.value)
    {
      var under := IsUnderManager(sessions, parentOf, open[i], manager.value);
      if under {
        tabs := tabs + [open[i]];
      }
      assert open[..i + 1][..i] == open[..i];
    }
    assert open[..|open|] == open;
  }
}
