/** native_connections.rs: reading an application pairing link and claiming its one-time ticket.

    URL parsing and the two validators are given; the network answers as it likes. `trace` records every request. */
module PairingLink {
  import opened Wrappers

  datatype Pair = Pair(key: string, value: string)

  datatype Link = Link(endpoints: seq<string>, ticket: string)

  datatype Fault = BadEndpoint | BadTicket | UnexpectedField | NoEndpoint | NoTicket

  datatype Rules = Rules(endpoint: string -> Option<string>, ticket: string -> Option<string>)

  // ---------- reading ----------

  predicate IsHost(p: Pair) { p.key == "host" }

  function Endpoints(pairs: seq<Pair>, rules: Rules): seq<string> {
    if pairs == [] then []
    else
      var before := Endpoints(pairs[..|pairs| - 1], rules);
      var p := pairs[|pairs| - 1];
      if !IsHost(p) || rules.endpoint(p.value).None? || rules.endpoint(p.value).value in before then before
      else before + [rules.endpoint(p.value).value]
  }

  // The position in the link where an endpoint is first named.
  ghost predicate FirstNamed(pairs: seq<Pair>, rules: Rules, e: string, i: nat) {
    && i < |pairs| && IsHost(pairs[i]) && rules.endpoint(pairs[i].value) == Some(e)
    && forall j :: 0 <= j < i && IsHost(pairs[j]) ==> rules.endpoint(pairs[j].value) != Some(e)
  }

  ghost predicate Acceptable(p: Pair, rules: Rules) {
    (IsHost(p) && rules.endpoint(p.value).Some?) || (p.key == "t" && rules.ticket(p.value).Some?)
  }

  ghost predicate OneTicket(pairs: seq<Pair>, n: nat)
    requires n <= |pairs|
  {
    forall i, j :: 0 <= i < j < n && pairs[i].key == "t" ==> pairs[j].key != "t"
  }

  ghost predicate Readable(pairs: seq<Pair>, n: nat, rules: Rules)
    requires n <= |pairs|
  {
    (forall i :: 0 <= i < n ==> Acceptable(pairs[i], rules)) && OneTicket(pairs, n)
  }

  ghost predicate Names(pairs: seq<Pair>, n: nat, key: string)
    requires n <= |pairs|
  {
    exists i :: 0 <= i < n && pairs[i].key == key
  }

  ghost predicate TicketFrom(pairs: seq<Pair>, n: nat, rules: Rules, ticket: string)
    requires n <= |pairs|
  {
    exists i :: 0 <= i < n && pairs[i].key == "t" && rules.ticket(pairs[i].value) == Some(ticket)
  }

  // What reading the first n fields has gathered.
  ghost predicate Gathered(pairs: seq<Pair>, n: nat, rules: Rules, endpoints: seq<string>, ticket: Option<string>)
    requires n <= |pairs|
  {
    && Readable(pairs, n, rules)
    && endpoints == Endpoints(pairs[..n], rules)
    && (endpoints != [] <==> Names(pairs, n, "host"))
    && (ticket.Some? <==> Names(pairs, n, "t"))
    && (ticket.Some? ==> TicketFrom(pairs, n, rules, ticket.value))
  }

  lemma HostGathered(pairs: seq<Pair>, n: nat, rules: Rules, endpoints: seq<string>, ticket: Option<string>)
    requires n < |pairs| && Gathered(pairs, n, rules, endpoints, ticket)
    requires IsHost(pairs[n]) && rules.endpoint(pairs[n].value).Some?
    ensures var e := rules.endpoint(pairs[n].value).value;
            Gathered(pairs, n + 1, rules, if e in endpoints then endpoints else endpoints + [e], ticket)
  {
    assert pairs[..n + 1][..n] == pairs[..n];
    assert "host" != "t";
    assert Names(pairs, n + 1, "t") <==> Names(pairs, n, "t");
    assert pairs[n].key == "host";
  }

  lemma TicketGathered(pairs: seq<Pair>, n: nat, rules: Rules, endpoints: seq<string>)
    requires n < |pairs| && Gathered(pairs, n, rules, endpoints, None)
    requires pairs[n].key == "t" && rules.ticket(pairs[n].value).Some?
    ensures Gathered(pairs, n + 1, rules, endpoints, rules.ticket(pairs[n].value))
  {
    assert pairs[..n + 1][..n] == pairs[..n];
    assert Names(pairs, n + 1, "host") <==> Names(pairs, n, "host");
    assert forall i :: 0 <= i < n ==> pairs[i].key != "t";
  }

  // A field that is neither a valid endpoint nor a valid ticket makes the link unreadable, and so does a second ticket.
  lemma OneBadField(pairs: seq<Pair>, n: nat, rules: Rules)
    requires n < |pairs|
    requires !Acceptable(pairs[n], rules) || (Names(pairs, n, "t") && pairs[n].key == "t")
    ensures !Readable(pairs, |pairs|, rules)
  {
    if Acceptable(pairs[n], rules) {
      var i :| 0 <= i < n && pairs[i].key == "t";
      assert !OneTicket(pairs, |pairs|);
    }
  }

  // One turn of the loop over the query.
  method GatherOne(pairs: seq<Pair>, n: nat, rules: Rules, endpoints: seq<string>, ticket: Option<string>)
    returns (r: Result<(seq<string>, Option<string>), Fault>)
    requires n < |pairs| && Gathered(pairs, n, rules, endpoints, ticket)
    ensures r.Ok? ==> Gathered(pairs, n + 1, rules, r.value.0, r.value.1)
    ensures r.Err? ==> !Readable(pairs, |pairs|, rules)
  {
    var p := pairs[n];
    if IsHost(p) {
      var endpoint := rules.endpoint(p.value);
      if endpoint.None? {
        OneBadField(pairs, n, rules);
        return Err(BadEndpoint);
      }
      HostGathered(pairs, n, rules, endpoints, ticket);
      return Ok((if endpoint.value in endpoints then endpoints else endpoints + [endpoint.value], ticket));
    }
    if p.key == "t" && ticket.None? {
      var valid := rules.ticket(p.value);
      if valid.None? {
        OneBadField(pairs, n, rules);
        return Err(BadTicket);
      }
      TicketGathered(pairs, n, rules, endpoints);
      return Ok((endpoints, valid));
    }
    OneBadField(pairs, n, rules);
    r := Err(UnexpectedField);
  }

  // A link is read exactly when every field is a valid endpoint or the one valid ticket, and both kinds are there.
  method ParseApplicationPairingLink(pairs: seq<Pair>, rules: Rules) returns (r: Result<Link, Fault>)
    ensures r.Ok? <==> Readable(pairs, |pairs|, rules) && Names(pairs, |pairs|, "host") && Names(pairs, |pairs|, "t")
    ensures r.Ok? ==> r.value.endpoints == Endpoints(pairs, rules) && TicketFrom(pairs, |pairs|, rules, r.value.ticket)
  {
    var endpoints: seq<string> := [];
    var ticket: Option<string> := None;
    var k := 0;
    while k < |pairs|
      invariant 0 <= k <= |pairs| && Gathered(pairs, k, rules, endpoints, ticket)
    {
      var more := GatherOne(pairs, k, rules, endpoints, ticket);
      if more.Err? { return Err(more.error); }
      endpoints, ticket := more.value.0, more.value.1;
      k := k + 1;
    }
    assert pairs[..k] == pairs;
    if endpoints == [] { return Err(NoEndpoint); }
    if ticket.None? { return Err(NoTicket); }
    r := Ok(Link(endpoints, ticket.value));
  }

  lemma {:induction false} MentionedIsListed(pairs: seq<Pair>, rules: Rules, i: nat)
    requires i < |pairs| && IsHost(pairs[i]) && rules.endpoint(pairs[i].value).Some?
    ensures rules.endpoint(pairs[i].value).value in Endpoints(pairs, rules)
  {
    if i < |pairs| - 1 { MentionedIsListed(pairs[..|pairs| - 1], rules, i); }
  }

  lemma FirstNamedStays(pairs: seq<Pair>, n: nat, rules: Rules, e: string, i: nat)
    requires n <= |pairs| && FirstNamed(pairs[..n], rules, e, i)
    ensures i < n && FirstNamed(pairs, rules, e, i)
  {
    assert forall j :: 0 <= j < n ==> pairs[..n][j] == pairs[j];
  }

  lemma NewMentionIsFirst(pairs: seq<Pair>, rules: Rules, e: string)
    requires pairs != [] && e !in Endpoints(pairs[..|pairs| - 1], rules)
    requires IsHost(pairs[|pairs| - 1]) && rules.endpoint(pairs[|pairs| - 1].value) == Some(e)
    ensures FirstNamed(pairs, rules, e, |pairs| - 1)
  {
    var n := |pairs| - 1;
    forall j | 0 <= j < n && IsHost(pairs[j]) ensures rules.endpoint(pairs[j].value) != Some(e) {
      assert pairs[..n][j] == pairs[j];
      if rules.endpoint(pairs[j].value).Some? { MentionedIsListed(pairs[..n], rules, j); }
    }
  }

  // Every endpoint the link names is listed once, in the order of first mention, and nothing else is.
  lemma {:induction false} EndpointsAreFirstMentions(pairs: seq<Pair>, rules: Rules) returns (at: seq<nat>)
    ensures |at| == |Endpoints(pairs, rules)|
    ensures forall k :: 0 <= k < |at| ==> FirstNamed(pairs, rules, Endpoints(pairs, rules)[k], at[k])
    ensures forall k, l :: 0 <= k < l < |at| ==> at[k] < at[l] && Endpoints(pairs, rules)[k] != Endpoints(pairs, rules)[l]
    ensures forall i :: 0 <= i < |pairs| && IsHost(pairs[i]) && rules.endpoint(pairs[i].value).Some? ==>
              rules.endpoint(pairs[i].value).value in Endpoints(pairs, rules)
  {
    at := [];
    if pairs != [] {
      var n := |pairs| - 1;
      var before := Endpoints(pairs[..n], rules);
      at := EndpointsAreFirstMentions(pairs[..n], rules);
      forall k | 0 <= k < |before| ensures at[k] < n && FirstNamed(pairs, rules, before[k], at[k]) {
        FirstNamedStays(pairs, n, rules, before[k], at[k]);
      }
      if |Endpoints(pairs, rules)| > |before| {
        NewMentionIsFirst(pairs, rules, rules.endpoint(pairs[n].value).value);
        at := at + [n];
      }
    }
    forall i | 0 <= i < |pairs| && IsHost(pairs[i]) && rules.endpoint(pairs[i].value).Some?
      ensures rules.endpoint(pairs[i].value).value in Endpoints(pairs, rules)
    {
      MentionedIsListed(pairs, rules, i);
    }
  }

  // ---------- claiming ----------

  // How an endpoint answered: not as a Sessions daemon, with a claim that came to nothing, or with a credential.
  datatype Answer = Unidentified | ClaimFailed | Accepted

  datatype Request = Health(endpoint: string, identified: bool) | Claim(endpoint: string, ticket: string, accepted: bool)

  function Asked(endpoint: string, ticket: string, answer: Answer): seq<Request> {
    match answer
    case Unidentified => [Health(endpoint, false)]
    case ClaimFailed => [Health(endpoint, true), Claim(endpoint, ticket, false)]
    case Accepted => [Health(endpoint, true), Claim(endpoint, ticket, true)]
  }

  function Requests(endpoints: seq<string>, ticket: string, answers: seq<Answer>): seq<Request>
    requires |answers| <= |endpoints|
  {
    if answers == [] then []
    else
      var n := |answers| - 1;
      Requests(endpoints, ticket, answers[..n]) + Asked(endpoints[n], ticket, answers[n])
  }

  lemma RequestsExtend(endpoints: seq<string>, ticket: string, answers: seq<Answer>, answer: Answer)
    requires |answers| < |endpoints|
    ensures Requests(endpoints, ticket, answers + [answer]) ==
              Requests(endpoints, ticket, answers) + Asked(endpoints[|answers|], ticket, answer)
  {
    assert (answers + [answer])[..|answers|] == answers;
  }

  class Client {
    ghost var trace: seq<Request>

    constructor ()
      ensures trace == []
    {
      trace := [];
    }

    method ClaimPairingEndpoint(endpoint: string, ticket: string) returns (ok: bool, ghost answer: Answer)
      modifies this
      ensures trace == old(trace) + Asked(endpoint, ticket, answer) && ok == answer.Accepted?
    {
      var identified: bool := *; // a successful answer in which a sessionsd says it is well
      trace := trace + [Health(endpoint, identified)];
      if !identified { return false, Unidentified; }
      ok := *; // a successful answer whose credential is valid
      trace := trace + [Claim(endpoint, ticket, ok)];
      answer := if ok then Accepted else ClaimFailed;
    }

    // The endpoints are asked in order until one accepts: at(i) is the first that did, and none did otherwise.
    method ClaimNativePairingLink(link: Link) returns (at: Option<nat>, ghost answers: seq<Answer>)
      modifies this
      ensures |answers| <= |link.endpoints| && trace == old(trace) + Requests(link.endpoints, link.ticket, answers)
      ensures at.Some? ==> |answers| == at.value + 1 && answers[at.value].Accepted?
      ensures at.None? ==> |answers| == |link.endpoints|
      ensures forall i :: 0 <= i < |answers| && answers[i].Accepted? ==> at == Some(i)
    {
      answers := [];
      for i := 0 to |link.endpoints|
        invariant |answers| == i && trace == old(trace) + Requests(link.endpoints, link.ticket, answers)
        invariant Accepted !in answers
      {
        ghost var answer;
        var ok;
        ok, answer := ClaimPairingEndpoint(link.endpoints[i], link.ticket);
        RequestsExtend(link.endpoints, link.ticket, answers, answer);
        answers := answers + [answer];
        if ok { return Some(i), answers; }
      }
      at := None;
    }
  }

  // The one-time ticket reaches an endpoint only right after that endpoint identified itself as a Sessions daemon.
  lemma {:induction false} TicketFollowsIdentification(endpoints: seq<string>, ticket: string, answers: seq<Answer>, k: nat)
    requires |answers| <= |endpoints| && k < |Requests(endpoints, ticket, answers)|
    requires Requests(endpoints, ticket, answers)[k].Claim?
    ensures k > 0
    ensures Requests(endpoints, ticket, answers)[k].ticket == ticket
    ensures Requests(endpoints, ticket, answers)[k - 1] == Health(Requests(endpoints, ticket, answers)[k].endpoint, true)
  {
    var n := |answers| - 1;
    if k < |Requests(endpoints, ticket, answers[..n])| {
      TicketFollowsIdentification(endpoints, ticket, answers[..n], k);
    }
  }

  lemma {:induction false} RequestsName(endpoints: seq<string>, ticket: string, answers: seq<Answer>, k: nat) returns (i: nat)
    requires |answers| <= |endpoints| && k < |Requests(endpoints, ticket, answers)|
    ensures i < |answers| && Requests(endpoints, ticket, answers)[k].endpoint == endpoints[i]
  {
    var n := |answers| - 1;
    if k < |Requests(endpoints, ticket, answers[..n])| {
      i := RequestsName(endpoints, ticket, answers[..n], k);
    } else {
      i := n;
    }
  }

  // Every endpoint up to the last answer was asked.
  lemma {:induction false} AnsweredWasAsked(endpoints: seq<string>, ticket: string, answers: seq<Answer>, i: nat) returns (k: nat)
    requires i < |answers| <= |endpoints|
    ensures k < |Requests(endpoints, ticket, answers)| && Requests(endpoints, ticket, answers)[k].endpoint == endpoints[i]
  {
    var n := |answers| - 1;
    k := |Requests(endpoints, ticket, answers[..n])|;
    if i < n { k := AnsweredWasAsked(endpoints, ticket, answers[..n], i); }
  }

  // Asking ends with an accepted claim exactly when the last answer was an acceptance.
  lemma LastRequest(endpoints: seq<string>, ticket: string, answers: seq<Answer>)
    requires |answers| <= |endpoints|
    ensures EndsAccepted(Requests(endpoints, ticket, answers)) <==> answers != [] && answers[|answers| - 1].Accepted?
    ensures answers != [] ==> LastEndpoint(Requests(endpoints, ticket, answers)) == Some(endpoints[|answers| - 1])
  {
  }

  predicate EndsAccepted(requests: seq<Request>) {
    requests != [] && requests[|requests| - 1].Claim? && requests[|requests| - 1].accepted
  }

  function LastEndpoint(requests: seq<Request>): Option<string> {
    if requests == [] then None else Some(requests[|requests| - 1].endpoint)
  }

  // A link that was read offers its ticket to no endpoint twice.
  lemma {:induction false} NoEndpointGetsTheTicketTwice(endpoints: seq<string>, ticket: string, answers: seq<Answer>, j: nat, k: nat)
    requires |answers| <= |endpoints| && forall a, b :: 0 <= a < b < |endpoints| ==> endpoints[a] != endpoints[b]
    requires j < k < |Requests(endpoints, ticket, answers)|
    requires Requests(endpoints, ticket, answers)[j].Claim? && Requests(endpoints, ticket, answers)[k].Claim?
    ensures Requests(endpoints, ticket, answers)[j].endpoint != Requests(endpoints, ticket, answers)[k].endpoint
  {
    var n := |answers| - 1;
    var before := Requests(endpoints, ticket, answers[..n]);
    if k < |before| {
      NoEndpointGetsTheTicketTwice(endpoints, ticket, answers[..n], j, k);
    } else if j < |before| {
      var i := RequestsName(endpoints, ticket, answers[..n], j);
    }
  }

  // Whatever the answers, a link that was read offers its ticket to each of its endpoints at most once, because the
  // endpoints it lists are distinct.
  lemma ReadLinksOfferTheTicketOnce(pairs: seq<Pair>, rules: Rules, ticket: string, answers: seq<Answer>, j: nat, k: nat)
    requires |answers| <= |Endpoints(pairs, rules)|
    requires j < k < |Requests(Endpoints(pairs, rules), ticket, answers)|
    requires Requests(Endpoints(pairs, rules), ticket, answers)[j].Claim?
    requires Requests(Endpoints(pairs, rules), ticket, answers)[k].Claim?
    ensures Requests(Endpoints(pairs, rules), ticket, answers)[j].endpoint != Requests(Endpoints(pairs, rules), ticket, answers)[k].endpoint
  {
    var at := EndpointsAreFirstMentions(pairs, rules);
    NoEndpointGetsTheTicketTwice(Endpoints(pairs, rules), ticket, answers, j, k);
  }

  // Reading a link and claiming it: every request goes to one of the endpoints named, every claim carries the link's
  // ticket, at most one goes to each, and the result is the endpoint whose claim, the last request, was accepted, or
  // none after all of them were asked.
  method ReadAndClaim(client: Client, pairs: seq<Pair>, rules: Rules) returns (r: Result<Option<nat>, Fault>, ghost requests: seq<Request>)
    modifies client
    ensures client.trace == old(client.trace) + requests
    ensures r.Err? ==> requests == []
    ensures forall k :: 0 <= k < |requests| ==> requests[k].endpoint in Endpoints(pairs, rules)
    ensures r.Ok? && r.value.Some? <==> EndsAccepted(requests)
    ensures r.Ok? && r.value.Some? ==>
              && r.value.value < |Endpoints(pairs, rules)| && LastEndpoint(requests) == Some(Endpoints(pairs, rules)[r.value.value])
    ensures r == Ok(None) ==> forall e :: e in Endpoints(pairs, rules) ==> exists k :: 0 <= k < |requests| && requests[k].endpoint == e
    ensures forall j, k :: 0 <= j < k < |requests| && requests[j].Claim? && requests[k].Claim? ==>
              requests[j].endpoint != requests[k].endpoint
    ensures forall k :: 0 <= k < |requests| && requests[k].Claim? ==>
              TicketFrom(pairs, |pairs|, rules, requests[k].ticket) && k > 0 && requests[k - 1] == Health(requests[k].endpoint, true)
  {
    requests := [];
    var link := ParseApplicationPairingLink(pairs, rules);
    if link.Err? { return Err(link.error), requests; }
    ghost var answers;
    var at;
    at, answers := client.ClaimNativePairingLink(link.value);
    requests := Requests(link.value.endpoints, link.value.ticket, answers);
    forall j, k | 0 <= j < k < |requests| && requests[j].Claim? && requests[k].Claim?
      ensures requests[j].endpoint != requests[k].endpoint
    {
      ReadLinksOfferTheTicketOnce(pairs, rules, link.value.ticket, answers, j, k);
    }
    forall k | 0 <= k < |requests| && requests[k].Claim?
      ensures requests[k].ticket == link.value.ticket && k > 0 && requests[k - 1] == Health(requests[k].endpoint, true)
    {
      TicketFollowsIdentification(link.value.endpoints, link.value.ticket, answers, k);
    }
    forall k | 0 <= k < |requests| ensures requests[k].endpoint in Endpoints(pairs, rules) {
      var i := RequestsName(link.value.endpoints, link.value.ticket, answers, k);
    }
    LastRequest(link.value.endpoints, link.value.ticket, answers);
    forall e | at.None? && e in Endpoints(pairs, rules) ensures exists k :: 0 <= k < |requests| && requests[k].endpoint == e {
      var i :| 0 <= i < |link.value.endpoints| && link.value.endpoints[i] == e;
      var k := AnsweredWasAsked(link.value.endpoints, link.value.ticket, answers, i);
    }
    r := Ok(at);
  }
}
