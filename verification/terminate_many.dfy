/**
  Confirmed termination (`terminate_many_confirmed` in src/host_runtime.rs): which sessions a request is
  sent for, and which acknowledgements are accepted.
 */
module TerminateMany {
  import opened Wrappers

  datatype ProcessState = Starting | Running | Exited | Failed

  datatype Placement = Placement(session: nat, epoch: nat, state: ProcessState)
  datatype Catalog = Catalog(hostEpoch: nat, terminals: seq<Placement>)

  datatype Request = Request(id: nat, session: nat, hostEpoch: nat, sessionEpoch: nat)
  datatype Termination = Termination(id: nat, session: nat)

  datatype Response = Resources(catalog: Catalog) | Terminated(results: seq<Termination>) | Unexpected

  datatype Failure = HostFailed(reason: string) | UnexpectedCatalog | UnexpectedTermination | Incomplete

  // ---- Which sessions are asked for ----

  /** The first placement of a session in the catalog. */
  function Find(terminals: seq<Placement>, session: nat): (found: Option<Placement>)
    ensures found.Some? ==> found.value in terminals && found.value.session == session
    ensures found.None? <==> forall p :: p in terminals ==> p.session != session
  {
    if terminals == [] then None
    else if terminals[0].session == session then Some(terminals[0])
    else Find(terminals[1..], session)
  }

  /** A session is asked to stop when the Host knows it and its process has neither exited nor failed. */
  predicate Stoppable(catalog: Catalog, session: nat) {
    var found := Find(catalog.terminals, session);
    found.Some? && !found.value.state.Exited? && !found.value.state.Failed?
  }

  /** The placement at `i` is the first that the catalog has of its session. */
  predicate FirstAt(terminals: seq<Placement>, session: nat, i: nat) {
    i < |terminals| && terminals[i].session == session && forall j :: 0 <= j < i ==> terminals[j].session != session
  }

  lemma {:induction false} FindIsFirst(terminals: seq<Placement>, session: nat, i: nat)
    requires FirstAt(terminals, session, i)
    ensures Find(terminals, session) == Some(terminals[i])
  {
    if i > 0 {
      assert terminals[0].session != session;
      forall j | 0 <= j < i - 1 ensures terminals[1..][j].session != session {
        assert terminals[j + 1].session != session;
      }
      FindIsFirst(terminals[1..], session, i - 1);
    }
  }

  lemma {:induction false} FirstExists(terminals: seq<Placement>, session: nat) returns (i: nat)
    requires exists p :: p in terminals && p.session == session
    ensures FirstAt(terminals, session, i)
  {
    if terminals[0].session == session {
      i := 0;
    } else {
      i := FirstExists(terminals[1..], session);
      i := i + 1;
    }
  }

  function Asked(catalog: Catalog, sessions: seq<nat>): seq<nat> {
    if sessions == [] then []
    else
      var last := sessions[|sessions| - 1];
      Asked(catalog, sessions[..|sessions| - 1]) + if Stoppable(catalog, last) then [last] else []
  }

  /** The request carries the epochs under which the catalog listed its session. */
  predicate Addressed(request: Request, catalog: Catalog) {
    && Stoppable(catalog, request.session)
    && request.hostEpoch == catalog.hostEpoch
    && request.sessionEpoch == Find(catalog.terminals, request.session).value.epoch
  }

  function Sessions(requests: seq<Request>): seq<nat> {
    seq(|requests|, i requires 0 <= i < |requests| => requests[i].session)
  }

  /** Request ids taken from the shared counter between `low` and `high`: in order, never one twice. */
  ghost predicate Numbered(requests: seq<Request>, low: nat, high: nat) {
    && (forall i :: 0 <= i < |requests| ==> low <= requests[i].id < high)
    && (forall i, j :: 0 <= i < j < |requests| ==> requests[i].id < requests[j].id)
  }

  // ---- Which acknowledgements are accepted ----

  predicate Matches(request: Request, result: Termination) {
    result.id == request.id && result.session == request.session
  }

  /** The check on the Host's answer: as many results as requests, and one for every request. */
  predicate Accepted(requests: seq<Request>, results: seq<Termination>) {
    && |results| == |requests|
    && forall i :: 0 <= i < |requests| ==> exists j :: 0 <= j < |results| && Matches(requests[i], results[j])
  }

  function Expected(requests: seq<Request>): seq<Termination> {
    seq(|requests|, i requires 0 <= i < |requests| => Termination(requests[i].id, requests[i].session))
  }

  lemma WithoutOne<T>(ys: seq<T>, k: nat)
    requires k < |ys|
    ensures multiset(ys) == multiset(ys[..k] + ys[k + 1..]) + multiset{ys[k]}
    ensures forall y :: y in ys && y != ys[k] ==> y in ys[..k] + ys[k + 1..]
  {
    assert ys == ys[..k] + [ys[k]] + ys[k + 1..];
    forall y | y in ys && y != ys[k] ensures y in ys[..k] + ys[k + 1..] {
      assert y in ys[..k] || y in [ys[k]] || y in ys[k + 1..];
    }
  }

  lemma {:induction false} DistinctWithinEqualLength<T>(xs: seq<T>, ys: seq<T>)
    requires |xs| == |ys| && (forall i, j :: 0 <= i < j < |xs| ==> xs[i] != xs[j])
    requires forall x :: x in xs ==> x in ys
    ensures multiset(xs) == multiset(ys)
  {
    if xs == [] {
    } else {
      assert xs[0] in ys;
      var k :| 0 <= k < |ys| && ys[k] == xs[0];
      var rest := ys[..k] + ys[k + 1..];
      WithoutOne(ys, k);
      forall x | x in xs[1..] ensures x in rest {
        assert x in xs && x != xs[0];
      }
      DistinctWithinEqualLength(xs[1..], rest);
      assert xs == [xs[0]] + xs[1..];
    }
  }

  /** The accepted answers are exactly the permutations of what was asked: no result is extra, none repeated. */
  lemma AcceptedIsBijection(requests: seq<Request>, results: seq<Termination>, low: nat, high: nat)
    requires Numbered(requests, low, high)
    ensures Accepted(requests, results) <==> multiset(results) == multiset(Expected(requests))
  {
    var expected := Expected(requests);
    if Accepted(requests, results) {
      forall x | x in expected ensures x in results {
        var i :| 0 <= i < |expected| && expected[i] == x;
        var j :| 0 <= j < |results| && Matches(requests[i], results[j]);
        assert results[j] == x;
      }
      DistinctWithinEqualLength(expected, results);
    }
    if multiset(results) == multiset(expected) {
      assert |multiset(results)| == |results| && |multiset(expected)| == |expected|;
      forall i | 0 <= i < |requests| ensures exists j :: 0 <= j < |results| && Matches(requests[i], results[j]) {
        assert expected[i] in multiset(expected);
        assert expected[i] in multiset(results);
        var j :| 0 <= j < |results| && results[j] == expected[i];
        assert Matches(requests[i], results[j]);
      }
    }
  }

  /** Without distinct ids the same check would let a foreign result in and drop an acknowledgement. */
  lemma RepeatedIdsWouldLetStrangersIn(id: nat, session: nat, stranger: Termination)
    requires stranger != Termination(id, session)
    ensures var requests := [Request(id, session, 0, 0), Request(id, session, 0, 0)];
            var results := [Termination(id, session), stranger];
            Accepted(requests, results) && multiset(results) != multiset(Expected(requests))
  {
    var requests := [Request(id, session, 0, 0), Request(id, session, 0, 0)];
    var results := [Termination(id, session), stranger];
    assert Matches(requests[0], results[0]) && Matches(requests[1], results[0]);
    assert stranger in multiset(results);
    assert Expected(requests) == [Termination(id, session), Termination(id, session)];
  }

  /** A session can be asked to stop exactly when its first placement says that it starts or runs. */
  lemma StoppableExactly(catalog: Catalog, session: nat)
    ensures Stoppable(catalog, session)
        <==> exists i: nat ::
               FirstAt(catalog.terminals, session, i) && catalog.terminals[i].state in {Starting, Running}
  {
    if Stoppable(catalog, session) {
      var i := FirstExists(catalog.terminals, session);
      FindIsFirst(catalog.terminals, session, i);
    }
    if i: nat :| FirstAt(catalog.terminals, session, i) && catalog.terminals[i].state in {Starting, Running} {
      FindIsFirst(catalog.terminals, session, i);
    }
  }

  /** A request names the epoch of the Host and that of the first placement of its session. */
  lemma AddressedExactly(request: Request, catalog: Catalog)
    ensures Addressed(request, catalog)
        <==> && request.hostEpoch == catalog.hostEpoch
             && exists i: nat ::
                  && FirstAt(catalog.terminals, request.session, i)
                  && catalog.terminals[i].state in {Starting, Running}
                  && catalog.terminals[i].epoch == request.sessionEpoch
  {
    if Addressed(request, catalog) {
      var i := FirstExists(catalog.terminals, request.session);
      FindIsFirst(catalog.terminals, request.session, i);
    }
    if i: nat :|
      && FirstAt(catalog.terminals, request.session, i)
      && catalog.terminals[i].state in {Starting, Running}
      && catalog.terminals[i].epoch == request.sessionEpoch
    {
      FindIsFirst(catalog.terminals, request.session, i);
    }
  }

  /** What is asked are the named sessions, in order, without those that have exited, failed or are unknown. */
  lemma {:induction false} AskedInOrder(catalog: Catalog, first: seq<nat>, rest: seq<nat>)
    ensures Asked(catalog, first + rest) == Asked(catalog, first) + Asked(catalog, rest)
    decreases |rest|
  {
    if rest == [] {
      assert first + rest == first;
    } else {
      var front, last := rest[..|rest| - 1], rest[|rest| - 1];
      AskedInOrder(catalog, first, front);
      assert (first + rest)[..|first + rest| - 1] == first + front;
    }
  }

  /** Asking twice for one session sends two requests; their acknowledgements are still told apart. */
  lemma {:induction false} AskedKeepsMultiplicity(catalog: Catalog, sessions: seq<nat>, session: nat)
    ensures multiset(Asked(catalog, sessions))[session]
            == if Stoppable(catalog, session) then multiset(sessions)[session] else 0
  {
    if sessions != [] {
      var front := sessions[..|sessions| - 1];
      AskedKeepsMultiplicity(catalog, front, session);
      assert sessions == front + [sessions[|sessions| - 1]];
    }
  }

  // ---- The operation ----

  class Runtime {
    /** Shared with every other caller, who may take ids at any time. */
    var nextRequestId: nat

    constructor (first: nat)
      ensures nextRequestId == first
    {
      nextRequestId := first;
    }

    /** `fetch_add` among any number of other callers. */
    method TakeRequestId() returns (id: nat)
      modifies this
      ensures old(nextRequestId) <= id < nextRequestId
    {
      id :| nextRequestId <= id;
      nextRequestId := id + 1;
    }

    method BuildRequests(catalog: Catalog, sessions: seq<nat>) returns (requests: seq<Request>)
      modifies this
      ensures Sessions(requests) == Asked(catalog, sessions)
      ensures forall i :: 0 <= i < |requests| ==> Addressed(requests[i], catalog)
      ensures old(nextRequestId) <= nextRequestId && Numbered(requests, old(nextRequestId), nextRequestId)
    {
      requests := [];
      for k := 0 to |sessions|
        invariant Sessions(requests) == Asked(catalog, sessions[..k])
        invariant forall i :: 0 <= i < |requests| ==> Addressed(requests[i], catalog)
        invariant old(nextRequestId) <= nextRequestId && Numbered(requests, old(nextRequestId), nextRequestId)
      {
        assert sessions[..k + 1][..k] == sessions[..k];
        var found := Find(catalog.terminals, sessions[k]);
        if found.None? {
          continue;
        }
        if found.value.state.Exited? || found.value.state.Failed? {
          continue;
        }
        var id := TakeRequestId();
        ghost var before := requests;
        requests := requests + [Request(id, sessions[k], catalog.hostEpoch, found.value.epoch)];
        assert Sessions(requests) == Sessions(before) + [sessions[k]];
      }
      assert sessions[..|sessions|] == sessions;
    }

    /**
      `catalogReply` and `host` are what the Host answers. The requests that went out are returned beside
      the result.
     */
    method TerminateManyConfirmed(
      sessions: seq<nat>, catalogReply: Result<Response, string>, host: seq<Request> -> Result<Response, string>)
      returns (outcome: Result<seq<Termination>, Failure>, sent: seq<Request>)
      modifies this
      ensures catalogReply.Err? ==> outcome == Err(HostFailed(catalogReply.error)) && sent == []
      ensures catalogReply.Ok? && !catalogReply.value.Resources? ==> outcome == Err(UnexpectedCatalog) && sent == []
      ensures catalogReply.Ok? && catalogReply.value.Resources? ==>
          && Sessions(sent) == Asked(catalogReply.value.catalog, sessions)
          && (forall i :: 0 <= i < |sent| ==> Addressed(sent[i], catalogReply.value.catalog))
          && Numbered(sent, old(nextRequestId), nextRequestId)
          && (sent == [] ==> outcome == Ok([]))
          && (sent != [] && host(sent).Err? ==> outcome == Err(HostFailed(host(sent).error)))
          && (sent != [] && host(sent).Ok? ==> outcome == Judged(sent, host(sent).value))
      ensures outcome.Ok? ==> multiset(outcome.value) == multiset(Expected(sent))
    {
      sent := [];
      if catalogReply.Err? {
        return Err(HostFailed(catalogReply.error)), sent;
      }
      if !catalogReply.value.Resources? {
        return Err(UnexpectedCatalog), sent;
      }
      sent := BuildRequests(catalogReply.value.catalog, sessions);
      if sent == [] {
        return Ok([]), sent;
      }
      var reply := host(sent);
      if reply.Err? {
        return Err(HostFailed(reply.error)), sent;
      }
      if !reply.value.Terminated? {
        return Err(UnexpectedTermination), sent;
      }
      AcceptedIsBijection(sent, reply.value.results, old(nextRequestId), nextRequestId);
      if !Accepted(sent, reply.value.results) {
        return Err(Incomplete), sent;
      }
      return Ok(reply.value.results), sent;
    }
  }

  /** What the Host's answer to a non-empty request list comes to: a permutation of what was asked, or an error. */
  ghost function Judged(sent: seq<Request>, response: Response): Result<seq<Termination>, Failure> {
    if !response.Terminated? then Err(UnexpectedTermination)
    else if multiset(response.results) != multiset(Expected(sent)) then Err(Incomplete)
    else Ok(response.results)
  }
}
