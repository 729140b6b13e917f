/** Runs in which an id comes back too early, each for a different reason, and a renewal that comes too late. */
module SseReusedIds {
  import opened SseLifecycle

  /** A request that came with the id "a"; an aborted one has been disconnected. */
  function Client(stage: Stage, aborted: bool): Request { Request("a", stage, !aborted, aborted) }

  /** A server with no send under way. */
  function Server(requests: seq<Request>, clients: map<Id, nat>, storage: set<Id>, sweep: Sweep): State {
    State(requests, clients, storage, sweep, multiset{}, multiset{})
  }

  /** `events` lead from `s` to `t`. */
  predicate Leads(s: State, events: seq<Event>, t: State) { IsRun(s, events) && Run(s, events) == t }

  /** Which parts of `Quiet` fail for the id "a", when request 0 is the only one that had it. */
  predicate Breaches(s: State, stored: bool, unfinished: bool, swept: bool, sending: bool) {
    && |s.requests| == 1 && s.requests[0].id == "a"
    && ("a" in s.storage <==> stored) && (s.requests[0].stage != Finished <==> unfinished)
    && (InSweep(s.sweep, 0) <==> swept) && (0 in s.checked <==> sending)
  }

  lemma {:induction false} RunSnoc(s: State, events: seq<Event>, e: Event)
    requires IsRun(s, events) && Enabled(Run(s, events), e)
    ensures IsRun(s, events + [e]) && Run(s, events + [e]) == Next(Run(s, events), e)
    decreases |events|
  {
    if events != [] {
      RunSnoc(Next(s, events[0]), events[1..], e);
      assert (events + [e])[1..] == events[1..] + [e];
    } else {
      assert [e][1..] == [];
    }
  }

  lemma Then(start: State, events: seq<Event>, s: State, e: Event) returns (more: seq<Event>, t: State)
    requires Leads(start, events, s) && Enabled(s, e)
    ensures Leads(start, more, t) && t == Next(s, e)
  {
    more, t := events + [e], Next(s, e);
    RunSnoc(start, events, e);
  }

  /** A first client connects. */
  lemma OneConnects() returns (events: seq<Event>)
    ensures Leads(Start({}), events, Server([Client(Waiting, false)], map["a" := 0], {"a"}, Resting))
  {
    var s := Start({});
    events, s := Then(Start({}), [], s, Arrive("a"));
    assert s == Server([Client(Arrived, false)], map[], {}, Resting);
    events, s := Then(Start({}), events, s, Proceed(0));
    assert s == Server([Client(NotInMap, false)], map[], {}, Resting);
    events, s := Then(Start({}), events, s, Proceed(0));
    assert s == Server([Client(Accepted, false)], map[], {}, Resting);
    events, s := Then(Start({}), events, s, Proceed(0));
    assert s == Server([Client(Stored, false)], map[], {"a"}, Resting);
    events, s := Then(Start({}), events, s, Proceed(0));
    assert s == Server([Client(Waiting, false)], map["a" := 0], {"a"}, Resting);
  }

  // ----- the earlier request has not finished -----

  lemma BothAccepted(start: State) returns (events: seq<Event>)
    requires start == Server([Client(Arrived, false), Client(Arrived, false)], map[], {}, Resting)
    ensures Leads(start, events, Server([Client(Accepted, false), Client(Accepted, false)], map[], {}, Resting))
  {
    var s := start;
    events, s := Then(start, [], s, Proceed(0));
    assert s == Server([Client(NotInMap, false), Client(Arrived, false)], map[], {}, Resting);
    events, s := Then(start, events, s, Proceed(0));
    assert s == Server([Client(Accepted, false), Client(Arrived, false)], map[], {}, Resting);
    events, s := Then(start, events, s, Proceed(1));
    assert s == Server([Client(Accepted, false), Client(NotInMap, false)], map[], {}, Resting);
    events, s := Then(start, events, s, Proceed(1));
    assert s == Server([Client(Accepted, false), Client(Accepted, false)], map[], {}, Resting);
  }

  lemma BothWait(start: State) returns (events: seq<Event>)
    requires start == Server([Client(Arrived, false), Client(Arrived, false)], map[], {}, Resting)
    ensures Leads(start, events, Server([Client(Waiting, false), Client(Waiting, false)], map["a" := 0], {"a"}, Resting))
  {
    events := BothAccepted(start);
    var s := Server([Client(Accepted, false), Client(Accepted, false)], map[], {}, Resting);
    events, s := Then(start, events, s, Proceed(0));
    assert s == Server([Client(Stored, false), Client(Accepted, false)], map[], {"a"}, Resting);
    events, s := Then(start, events, s, Proceed(0));
    assert s == Server([Client(Waiting, false), Client(Accepted, false)], map["a" := 0], {"a"}, Resting);
    events, s := Then(start, events, s, Proceed(1));
    assert s == Server([Client(Waiting, false), Client(Stored, false)], map["a" := 0], {"a"}, Resting);
    events, s := Then(start, events, s, Proceed(1));
    assert s == Server([Client(Waiting, false), Client(Waiting, false)], map["a" := 0], {"a"}, Resting);
  }

  lemma FirstLeaves(start: State) returns (events: seq<Event>)
    requires start == Server([Client(Arrived, false), Client(Arrived, false)], map[], {}, Resting)
    ensures Leads(start, events, Server([Client(Finished, true), Client(Waiting, false)], map[], {}, Resting))
  {
    events := BothWait(start);
    var s := Server([Client(Waiting, false), Client(Waiting, false)], map["a" := 0], {"a"}, Resting);
    events, s := Then(start, events, s, Abort(0));
    assert s == s.(requests := [Request("a", Waiting, true, true), Client(Waiting, false)]);
    events, s := Then(start, events, s, Proceed(0));
    assert s == Server([Client(Disconnected, true), Client(Waiting, false)], map["a" := 0], {"a"}, Resting);
    events, s := Then(start, events, s, Proceed(0));
    assert s == Server([Client(Forgotten, true), Client(Waiting, false)], map["a" := 0], {}, Resting);
    events, s := Then(start, events, s, Proceed(0));
    assert s == Server([Client(Finished, true), Client(Waiting, false)], map[], {}, Resting);
  }

  /** Two requests with one id can both be let in. Only the first joins the map; when it leaves, the second
      stays connected with no way to reach it, and a third would be let in. */
  lemma TwinIsLost() returns (before: seq<Event>, at: State, after: seq<Event>)
    ensures Leads(Start({}), before, at) && Breaches(at, false, true, false, false)
    ensures Leads(Next(at, Arrive("a")), after, Server([Client(Finished, true), Client(Waiting, false)], map[], {}, Resting))
  {
    before, at := Then(Start({}), [], Start({}), Arrive("a"));
    assert at == Server([Client(Arrived, false)], map[], {}, Resting);
    assert Next(at, Arrive("a")) == Server([Client(Arrived, false), Client(Arrived, false)], map[], {}, Resting);
    after := FirstLeaves(Next(at, Arrive("a")));
  }

  // ----- the sweep has the earlier client in hand -----

  lemma SweepStarts() returns (events: seq<Event>)
    ensures Leads(Start({}), events, Server([Client(Waiting, false)], map["a" := 0], {"a"}, Visiting([0])))
  {
    events := OneConnects();
    var s := Server([Client(Waiting, false)], map["a" := 0], {"a"}, Resting);
    assert 0 in s.clients.Values by { assert s.clients["a"] == 0; }
    events, s := Then(Start({}), events, s, StartSweep([0]));
  }

  lemma SweepMissesTheFirst() returns (events: seq<Event>)
    ensures Leads(Start({}), events, Server([Client(Forgotten, true)], map["a" := 0], {}, Missing(0, [])))
  {
    events := SweepStarts();
    var s := Server([Client(Waiting, false)], map["a" := 0], {"a"}, Visiting([0]));
    events, s := Then(Start({}), events, s, Abort(0));
    assert s == Server([Request("a", Waiting, true, true)], map["a" := 0], {"a"}, Visiting([0]));
    events, s := Then(Start({}), events, s, Proceed(0));
    assert s == Server([Client(Disconnected, true)], map["a" := 0], {"a"}, Visiting([0]));
    events, s := Then(Start({}), events, s, Proceed(0));
    assert s == Server([Client(Forgotten, true)], map["a" := 0], {}, Visiting([0]));
    assert s.sweep.rest[1..] == [];
    events, s := Then(Start({}), events, s, SweepOn);
  }

  lemma SecondConnects(start: State) returns (events: seq<Event>)
    requires start == Server([Client(Finished, true), Client(Arrived, false)], map[], {}, Missing(0, []))
    ensures Leads(start, events, Server([Client(Finished, true), Client(Waiting, false)], map["a" := 1], {"a"}, Missing(0, [])))
  {
    var s := start;
    events, s := Then(start, [], s, Proceed(1));
    assert s == Server([Client(Finished, true), Client(NotInMap, false)], map[], {}, Missing(0, []));
    events, s := Then(start, events, s, Proceed(1));
    assert s == Server([Client(Finished, true), Client(Accepted, false)], map[], {}, Missing(0, []));
    events, s := Then(start, events, s, Proceed(1));
    assert s == Server([Client(Finished, true), Client(Stored, false)], map[], {"a"}, Missing(0, []));
    events, s := Then(start, events, s, Proceed(1));
    assert s == Server([Client(Finished, true), Client(Waiting, false)], map["a" := 1], {"a"}, Missing(0, []));
  }

  lemma SweepGoesOn(start: State) returns (events: seq<Event>)
    requires start == Server([Client(Finished, true), Client(Arrived, false)], map[], {}, Missing(0, []))
    ensures Leads(start, events, Server([Client(Finished, true), Client(Waiting, false)], map[], {}, Visiting([])))
  {
    events := SecondConnects(start);
    var s := Server([Client(Finished, true), Client(Waiting, false)], map["a" := 1], {"a"}, Missing(0, []));
    events, s := Then(start, events, s, SweepOn);
    assert s == Server([Client(Finished, true), Client(Waiting, false)], map["a" := 1], {"a"}, Closed(0, []));
    events, s := Then(start, events, s, SweepOn);
    assert s == Server([Client(Finished, true), Client(Waiting, false)], map["a" := 1], {}, Erased(0, []));
    events, s := Then(start, events, s, SweepOn);
    assert s == Server([Client(Finished, true), Client(Waiting, false)], map[], {}, Visiting([]));
  }

  /** The second request comes only after the first has finished, and still loses its place: the sweep goes on
      closing the first client and removes the id both had. */
  lemma SweepDropsTheSecond() returns (before: seq<Event>, at: State, after: seq<Event>)
    ensures Leads(Start({}), before, at) && Breaches(at, false, false, true, false)
    ensures Leads(Next(at, Arrive("a")), after, Server([Client(Finished, true), Client(Waiting, false)], map[], {}, Visiting([])))
  {
    before := SweepMissesTheFirst();
    before, at := Then(Start({}), before, Server([Client(Forgotten, true)], map["a" := 0], {}, Missing(0, [])), Proceed(0));
    assert at == Server([Client(Finished, true)], map[], {}, Missing(0, []));
    assert Next(at, Arrive("a")) == Server([Client(Finished, true), Client(Arrived, false)], map[], {}, Missing(0, []));
    after := SweepGoesOn(Next(at, Arrive("a")));
  }

  // ----- a send is about to renew the id -----

  lemma SendIsLate() returns (events: seq<Event>)
    ensures Leads(Start({}), events, State([Client(Forgotten, true)], map["a" := 0], {}, Resting, multiset{}, multiset{0}))
  {
    events := OneConnects();
    var s := Server([Client(Waiting, false)], map["a" := 0], {"a"}, Resting);
    events, s := Then(Start({}), events, s, StartSend("a"));
    events, s := Then(Start({}), events, s, CheckSend(0));
    assert s == State([Client(Waiting, false)], map["a" := 0], {"a"}, Resting, multiset{}, multiset{0});
    events, s := Then(Start({}), events, s, Abort(0));
    assert s.requests == [Request("a", Waiting, true, true)];
    events, s := Then(Start({}), events, s, Proceed(0));
    assert s.requests == [Client(Disconnected, true)];
    events, s := Then(Start({}), events, s, Proceed(0));
    assert s == State([Client(Forgotten, true)], map["a" := 0], {}, Resting, multiset{}, multiset{0});
  }

  lemma SecondIsRefused(start: State) returns (events: seq<Event>)
    requires start == State([Client(Finished, true), Client(Arrived, false)], map[], {}, Resting, multiset{}, multiset{0})
    ensures Leads(start, events, Server([Client(Finished, true), Client(Refused, false)], map[], {"a"}, Resting))
  {
    var s := start;
    events, s := Then(start, [], s, UpdateStorage(0));
    assert s == Server([Client(Finished, true), Client(Arrived, false)], map[], {"a"}, Resting);
    events, s := Then(start, events, s, Proceed(1));
    assert s == Server([Client(Finished, true), Client(NotInMap, false)], map[], {"a"}, Resting);
    events, s := Then(start, events, s, Proceed(1));
    assert s == Server([Client(Finished, true), Client(Refused, false)], map[], {"a"}, Resting);
  }

  /** A send that found its client still connected renews the id after the client has left: from then on the id
      is refused although nobody is connected. */
  lemma LateSendLocksTheIdOut() returns (before: seq<Event>, at: State, after: seq<Event>)
    ensures Leads(Start({}), before, at) && Breaches(at, false, false, false, true)
    ensures Leads(Next(at, Arrive("a")), after, Server([Client(Finished, true), Client(Refused, false)], map[], {"a"}, Resting))
  {
    before := SendIsLate();
    before, at := Then(Start({}), before,
                       State([Client(Forgotten, true)], map["a" := 0], {}, Resting, multiset{}, multiset{0}), Proceed(0));
    assert at == State([Client(Finished, true)], map[], {}, Resting, multiset{}, multiset{0});
    assert Next(at, Arrive("a")).requests == [Client(Finished, true), Client(Arrived, false)];
    after := SecondIsRefused(Next(at, Arrive("a")));
  }

  // ----- a sweep that has made up its mind -----

  lemma SendChecked() returns (events: seq<Event>)
    ensures Leads(Start({}), events, State([Client(Waiting, false)], map["a" := 0], {}, Resting, multiset{}, multiset{0}))
  {
    events := OneConnects();
    var s := Server([Client(Waiting, false)], map["a" := 0], {"a"}, Resting);
    events, s := Then(Start({}), events, s, StartSend("a"));
    events, s := Then(Start({}), events, s, CheckSend(0));
    assert s == State([Client(Waiting, false)], map["a" := 0], {"a"}, Resting, multiset{}, multiset{0});
    events, s := Then(Start({}), events, s, Expire("a"));
    assert s == State([Client(Waiting, false)], map["a" := 0], {}, Resting, multiset{}, multiset{0});
  }

  /** An id expires, a sweep misses it, and a send renews it before the sweep closes the client: the client is
      closed all the same, connected and with its id in the storage. */
  lemma SweepClosesARenewedClient() returns (events: seq<Event>, at: State)
    ensures Leads(Start({}), events, at)
    ensures at == Server([Client(Waiting, false)], map["a" := 0], {"a"}, Missing(0, []))
    ensures Enabled(at, SweepOn) && !Next(at, SweepOn).requests[0].connected
  {
    events := SendChecked();
    var s := State([Client(Waiting, false)], map["a" := 0], {}, Resting, multiset{}, multiset{0});
    assert 0 in s.clients.Values by { assert s.clients["a"] == 0; }
    events, s := Then(Start({}), events, s, StartSweep([0]));
    assert s.sweep.rest[1..] == [];
    events, s := Then(Start({}), events, s, SweepOn);
    assert s == State([Client(Waiting, false)], map["a" := 0], {}, Missing(0, []), multiset{}, multiset{0});
    events, at := Then(Start({}), events, s, UpdateStorage(0));
  }
}
