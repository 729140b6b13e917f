/** The clients of an event-stream server: who is connected, and the storage shared with other processes. */
module SseService {
  import opened SseLifecycle

  type Bytes = seq<int>

  class SseClient {
    const id: Id
    var isConnected: bool
    /** The abort signal of the request, which also fires when the peer closes the connection. */
    var aborted: bool
    /** What was written to the response body. */
    var written: seq<Bytes>

    constructor (id: Id)
      ensures this.id == id && isConnected && !aborted && written == []
    {
      this.id, isConnected, aborted, written := id, true, false, [];
    }

    /** True only the first time: later calls do nothing. */
    method Disconnect() returns (first: bool)
      modifies this`isConnected, this`aborted
      ensures first == old(isConnected) && !isConnected
      ensures aborted == (old(aborted) || first)
    {
      if isConnected {
        isConnected := false;
        aborted := true;
        return true;
      }
      return false;
    }

    /** Refused on a client that is not connected. */
    method Send(bytes: Bytes) returns (sent: bool)
      modifies this`written
      ensures sent == isConnected
      ensures written == if isConnected then old(written) + [bytes] else old(written)
    {
      if !isConnected { return false; }
      written := written + [bytes];
      return true;
    }
  }

  datatype SendResult = Sent | Cancelled

  class SseService {
    var clients: map<Id, SseClient>
    var storage: set<Id>
    /** Every client made so far, in order of arrival, how far its request is, and where each listed one is. */
    ghost var made: seq<SseClient>
    ghost var stages: seq<Stage>
    ghost var places: map<Id, nat>

    ghost predicate Valid()
      reads this
    {
      && |made| == |stages|
      && (forall i, j :: 0 <= i < j < |made| ==> made[i] != made[j])
      && places.Keys == clients.Keys
      && (forall id :: id in places ==> places[id] < |made| && made[places[id]] == clients[id])
      && (forall id :: id in clients ==> clients[id].id == id)
    }

    ghost function Requests(): (rs: seq<Request>)
      reads this, made
      requires Valid()
      ensures |rs| == |made|
    {
      seq(|made|, i requires 0 <= i < |made| && |stages| == |made| reads this, made
            => Request(made[i].id, stages[i], made[i].isConnected, made[i].aborted))
    }

    /** The service as a state of the step-by-step model, with no sweep and no send under way. */
    ghost function View(): State
      reads this, made
      requires Valid()
    {
      State(Requests(), places, storage, Resting, multiset{}, multiset{})
    }

    constructor (storage: set<Id>)
      ensures Valid() && View() == Start(storage) && clients == map[]
    {
      this.clients, this.storage := map[], storage;
      made, stages, places := [], [], map[];
    }

    method IsClientConnectedAsync(id: Id) returns (connected: bool)
      ensures connected == (id in clients || id in storage)
    {
      connected := id in clients;
      if !connected { connected := id in storage; }
    }

    method GetClient(id: Id) returns (client: SseClient?)
      ensures client == if id in clients then clients[id] else null
    {
      client := null;
      if id in clients { client := clients[id]; }
    }

    /** The clients of some ids, and their places. */
    ghost predicate Lists(ids: seq<Id>, snapshot: seq<SseClient>, order: seq<nat>)
      reads this
    {
      && |ids| == |snapshot| == |order|
      && forall k :: 0 <= k < |ids| ==>
           && ids[k] in clients && snapshot[k] == clients[ids[k]]
           && ids[k] in places && order[k] == places[ids[k]]
    }

    /** A snapshot of the clients, each listed one once, with their places. */
    method GetClients() returns (snapshot: seq<SseClient>, ghost order: seq<nat>)
      requires Valid()
      ensures forall k :: 0 <= k < |snapshot| ==> snapshot[k] in clients.Values
      ensures forall id :: id in clients ==> clients[id] in snapshot
      ensures |order| == |snapshot|
      ensures forall k :: 0 <= k < |order| ==> order[k] < |made| && made[order[k]] == snapshot[k]
      ensures forall k :: 0 <= k < |order| ==> order[k] in places.Values
      ensures forall id :: id in places ==> places[id] in order
    {
      snapshot, order := [], [];
      ghost var ids: seq<Id> := [];
      var left := clients.Keys;
      while left != {}
        invariant left <= clients.Keys && Lists(ids, snapshot, order)
        invariant forall id :: id in clients ==> id in left || id in ids
        decreases |left|
      {
        var id :| id in left;
        ids, order := ids + [id], order + [places[id]];
        snapshot, left := snapshot + [clients[id]], left - {id};
      }
      AllListed(ids, snapshot, order);
    }

    lemma AllListed(ids: seq<Id>, snapshot: seq<SseClient>, order: seq<nat>)
      requires Valid() && Lists(ids, snapshot, order) && forall id :: id in clients ==> id in ids
      ensures forall k :: 0 <= k < |snapshot| ==> snapshot[k] in clients.Values
      ensures forall id :: id in clients ==> clients[id] in snapshot
      ensures forall k :: 0 <= k < |order| ==> order[k] < |made| && made[order[k]] == snapshot[k]
      ensures forall k :: 0 <= k < |order| ==> order[k] in places.Values
      ensures forall id :: id in places ==> places[id] in order
    {
      forall id | id in clients ensures clients[id] in snapshot && places[id] in order {
        var k :| 0 <= k < |ids| && ids[k] == id;
        assert snapshot[k] == clients[id] && order[k] == places[id];
      }
    }

    /** A request let in: its client has been made and is not known yet. */
    ghost method Admit(client: SseClient)
      requires Valid() && client !in made
      modifies this`made, this`stages
      ensures Valid() && made == old(made) + [client] && stages == old(stages) + [Accepted]
      ensures View() == old(View()).(requests := old(View()).requests
        + [Request(client.id, Accepted, client.isConnected, client.aborted)])
    {
      ghost var before := View();
      made, stages := made + [client], stages + [Accepted];
      assert Requests() == before.requests + [Request(client.id, Accepted, client.isConnected, client.aborted)];
    }

    /** The id joins the storage, and the client the map unless the id is taken there. */
    method ConnectClientAsync(client: SseClient, ghost i: nat)
      requires Valid() && i < |made| && made[i] == client
      modifies this
      ensures Valid() && made == old(made) && stages == old(stages)[i := Waiting]
      ensures View() == Connected(old(View()), i)
      ensures clients == TryAdd(old(clients), client.id, client)
    {
      ghost var before := View();
      storage := storage + {client.id};
      clients := TryAdd(clients, client.id, client);
      places := TryAdd(places, client.id, i);
      stages := stages[i := Waiting];
      assert Requests() == At(before, i, Waiting).requests;
    }

    /** The client is disconnected; its id leaves the storage and the map. Called by the request, whose stage then
        moves on, and by the sweep, which leaves it alone. */
    method DisconnectClientAsync(client: SseClient, ghost i: nat, ghost next: Stage)
      requires Valid() && i < |made| && made[i] == client
      modifies this, client`isConnected, client`aborted
      ensures Valid() && made == old(made) && stages == old(stages)[i := next]
      ensures View() == Left(old(View()), i, next) && !client.isConnected
      ensures clients == TryRemove(old(clients), client.id)
    {
      ghost var before := View();
      var _ := client.Disconnect();
      storage := storage - {client.id};
      clients := TryRemove(clients, client.id);
      places := TryRemove(places, client.id);
      stages := stages[i := next];
      assert Requests() == At(Disconnect(before, i), i, next).requests;
    }

    /** A client that has left is skipped; a connected one stays alive in the storage and is written to. */
    method SendTo(client: SseClient, bytes: Bytes, cancelled: bool) returns (result: SendResult)
      modifies this`storage, client`written
      ensures result == if client.isConnected && cancelled then Cancelled else Sent
      ensures storage == old(storage) + if client.isConnected && !cancelled then {client.id} else {}
      ensures client.written == old(client.written) + if client.isConnected && !cancelled then [bytes] else []
    {
      if !client.isConnected { return Sent; }
      if cancelled { return Cancelled; }
      storage := storage + {client.id};
      var _ := client.Send(bytes);
      return Sent;
    }

    /** An unknown id is silently ignored, and so is a client that has left. A send that reaches its client is the
        three steps of a send, undisturbed. */
    method SendEventAsync(id: Id, bytes: Bytes, cancelled: bool) returns (result: SendResult)
      requires Valid()
      modifies this`storage, (if id in clients then {clients[id]} else {})`written
      ensures Valid()
      ensures var reached := id in clients && clients[id].isConnected;
        && result == (if reached && cancelled then Cancelled else Sent)
        && (id in clients ==>
              clients[id].written == old(clients[id].written) + if reached && !cancelled then [bytes] else [])
        && View() == if reached && !cancelled then SentUndisturbed(old(View()), id) else old(View())
    {
      var client := GetClient(id);
      if client == null { return Sent; }
      ghost var before := View();
      assert before.requests[places[id]].id == id;
      result := SendTo(client, bytes, cancelled);
      assert Requests() == before.requests;
    }
  }

  /** A send that finds its client connected: it looks it up, checks it and renews its id. */
  function SentUndisturbed(s: State, id: Id): (t: State)
    requires id in s.clients && s.clients[id] < |s.requests|
    requires s.requests[s.clients[id]].connected && s.requests[s.clients[id]].id == id
    ensures s.found == multiset{} && s.checked == multiset{} ==> t == s.(storage := s.storage + {id})
  {
    var i := s.clients[id];
    Next(Next(Next(s, StartSend(id)), CheckSend(i)), UpdateStorage(i))
  }

  function Connected(s: State, i: nat): State
    requires i < |s.requests|
  {
    var id := s.requests[i].id;
    At(s, i, Waiting).(storage := s.storage + {id}, clients := TryAdd(s.clients, id, i))
  }

  function Left(s: State, i: nat, next: Stage): State
    requires i < |s.requests|
  {
    var id := s.requests[i].id;
    At(Disconnect(s, i), i, next).(storage := s.storage - {id}, clients := TryRemove(s.clients, id))
  }

  /** The three steps of a disconnection, undisturbed. */
  lemma DisconnectUndisturbed(s: State, i: nat)
    requires i < |s.requests| && s.requests[i].stage == Waiting && s.requests[i].aborted
    ensures var left := Next(s, Proceed(i));
      Enabled(left, Proceed(i)) &&
      var forgotten := Next(left, Proceed(i));
      Enabled(forgotten, Proceed(i)) && Next(forgotten, Proceed(i)) == Left(s, i, Finished)
  {
    var left := Next(s, Proceed(i));
    var forgotten := Next(left, Proceed(i));
    assert forgotten.requests == At(Disconnect(s, i), i, Forgotten).requests;
    assert Next(forgotten, Proceed(i)).requests == At(Disconnect(s, i), i, Finished).requests;
  }

  // ----- a request -----

  /** The steps of the n-th request from its arrival to waiting. */
  function Accepting(id: Id, n: nat): seq<Event> { [Arrive(id)] + Deciding(n) }

  function Deciding(n: nat): seq<Event> { [Proceed(n)] + ([Proceed(n)] + Connecting(n)) }

  function Connecting(n: nat): seq<Event> { [Proceed(n)] + ([Proceed(n)] + []) }

  /** The two steps of a connection, undisturbed. */
  lemma ConnectUndisturbed(s: State, n: nat)
    requires n < |s.requests| && s.requests[n].stage == Accepted
    ensures IsRun(s, Connecting(n)) && Run(s, Connecting(n)) == Connected(s, n)
  {
    var stored := Next(s, Proceed(n));
    assert Next(stored, Proceed(n)).requests == At(s, n, Waiting).requests;
    RunOne(stored, Proceed(n), []);
    RunOne(s, Proceed(n), [Proceed(n)] + []);
  }

  /** Both questions are answered no: the request is accepted, and connects. */
  lemma DecideUndisturbed(s: State, n: nat)
    requires n < |s.requests| && s.requests[n].stage == Arrived
    requires s.requests[n].id !in s.clients && s.requests[n].id !in s.storage
    ensures IsRun(s, Deciding(n)) && Run(s, Deciding(n)) == Connected(At(s, n, Accepted), n)
  {
    var asked := Next(s, Proceed(n));
    assert Next(asked, Proceed(n)).requests == At(s, n, Accepted).requests;
    ConnectUndisturbed(At(s, n, Accepted), n);
    RunOne(asked, Proceed(n), Connecting(n));
    RunOne(s, Proceed(n), [Proceed(n)] + Connecting(n));
  }

  /** Up to its acceptance an undisturbed request only changes its own stage. */
  lemma AcceptUndisturbed(s: State, id: Id)
    requires id !in s.clients && id !in s.storage
    ensures var n, accepted := |s.requests|, s.(requests := s.requests + [Request(id, Accepted, true, false)]);
      IsRun(s, Accepting(id, n)) && Run(s, Accepting(id, n)) == Connected(accepted, n)
  {
    var n, arrived := |s.requests|, Next(s, Arrive(id));
    ArrivedLast(s, id);
    DecideUndisturbed(arrived, n);
    RunOne(s, Arrive(id), Deciding(n));
  }

  lemma ArrivedLast(s: State, id: Id)
    ensures var n, arrived := |s.requests|, Next(s, Arrive(id));
      && n < |arrived.requests| && arrived.requests[n] == Request(id, Arrived, true, false)
      && arrived.clients == s.clients && arrived.storage == s.storage
      && At(arrived, n, Accepted) == s.(requests := s.requests + [Request(id, Accepted, true, false)])
  {
    var n, arrived := |s.requests|, Next(s, Arrive(id));
    assert At(arrived, n, Accepted).requests == s.requests + [Request(id, Accepted, true, false)];
  }

  class SseMiddleware {
    const service: SseService

    constructor (service: SseService)
      ensures this.service == service
    {
      this.service := service;
    }

    /** Up to the wait: null is the conflict, answered exactly when the id is listed or stored. A request that is
        let in is its first five steps, undisturbed. */
    method Accept(id: Id) returns (client: SseClient?)
      requires service.Valid()
      modifies service
      ensures service.Valid()
      ensures client == null <==> old(id in service.clients || id in service.storage)
      ensures client == null ==> service.View() == old(service.View())
      ensures client != null ==>
        && fresh(client) && client.id == id && client.isConnected && !client.aborted
        && service.made == old(service.made) + [client] && service.stages == old(service.stages) + [Waiting]
        && IsRun(old(service.View()), Accepting(id, |old(service.made)|))
        && service.View() == Run(old(service.View()), Accepting(id, |old(service.made)|))
    {
      var connected := service.IsClientConnectedAsync(id);
      if connected { return null; }
      ghost var s, n := service.View(), |service.made|;
      AcceptUndisturbed(s, id);
      client := new SseClient(id);
      service.Admit(client);
      service.ConnectClientAsync(client, n);
      assert service.View() == Run(s, Accepting(id, n));
    }

    /** After the wait: undisturbed, the three steps of a disconnection. */
    method Leave(client: SseClient, ghost i: nat)
      requires service.Valid() && i < |service.made| && service.made[i] == client
      requires service.stages[i] == Waiting && client.aborted
      modifies service, client`isConnected, client`aborted
      ensures service.Valid() && !client.isConnected
      ensures var s := old(service.View());
        && Enabled(s, Proceed(i)) && Enabled(Next(s, Proceed(i)), Proceed(i))
        && Enabled(Next(Next(s, Proceed(i)), Proceed(i)), Proceed(i))
        && service.View() == Next(Next(Next(s, Proceed(i)), Proceed(i)), Proceed(i))
    {
      DisconnectUndisturbed(service.View(), i);
      service.DisconnectClientAsync(client, i, Finished);
    }
  }

  // ----- the sweep -----

  /** One client of a sweep that meets nobody. */
  function SweepOne(s: State, i: nat): State
    requires i < |s.requests|
  {
    var id := s.requests[i].id;
    if id in s.storage then s
    else Disconnect(s, i).(storage := s.storage - {id}, clients := TryRemove(s.clients, id))
  }

  function SweepAll(s: State, order: seq<nat>): (t: State)
    requires forall k :: 0 <= k < |order| ==> order[k] < |s.requests|
    ensures |t.requests| == |s.requests|
  {
    if order == [] then s else SweepOne(SweepAll(s, order[..|order| - 1]), order[|order| - 1])
  }

  class CloseExpiredConnections {
    const service: SseService

    constructor (service: SseService)
      ensures this.service == service
    {
      this.service := service;
    }

    /** One client of a round, undisturbed. */
    method Visit(client: SseClient, ghost i: nat)
      requires service.Valid() && i < |service.made| && service.made[i] == client
      modifies service, client`isConnected, client`aborted
      ensures service.Valid() && service.made == old(service.made)
      ensures service.View() == SweepOne(old(service.View()), i)
    {
      ghost var s := service.View();
      assert s.requests[i].id == client.id;
      if client.id !in service.storage {
        service.DisconnectClientAsync(client, i, service.stages[i]);
        assert At(Disconnect(s, i), i, s.requests[i].stage).requests == Disconnect(s, i).requests;
      }
    }

    /** One round, undisturbed. */
    method Sweep() returns (ghost order: seq<nat>)
      requires service.Valid()
      modifies service, service.made
      ensures service.Valid() && service.made == old(service.made)
      ensures forall id :: id in old(service.places) ==> old(service.places)[id] in order
      ensures forall k :: 0 <= k < |order| ==> order[k] < |service.made| && order[k] in old(service.places).Values
      ensures service.View() == SweepAll(old(service.View()), order)
    {
      ghost var before := service.View();
      var snapshot;
      snapshot, order := service.GetClients();
      for k := 0 to |snapshot|
        invariant service.Valid() && service.made == old(service.made)
        invariant service.View() == SweepAll(before, order[..k])
      {
        assert order[..k + 1][..k] == order[..k];
        Visit(snapshot[k], order[k]);
      }
      assert order[..|order|] == order;
    }
  }

  /** What a round does to the state: exactly the visited clients whose ids are not in the storage are closed. */
  lemma {:induction false} SweepClosesTheMissing(s: State, order: seq<nat>)
    requires forall k :: 0 <= k < |order| ==> order[k] < |s.requests|
    ensures var t := SweepAll(s, order);
      && t.storage == s.storage
      && (forall i :: 0 <= i < |s.requests| ==>
            && t.requests[i].id == s.requests[i].id && t.requests[i].stage == s.requests[i].stage
            && (t.requests[i].connected <==>
                  s.requests[i].connected && !(i in order && s.requests[i].id !in s.storage)))
  {
    if order != [] {
      var front, last := order[..|order| - 1], order[|order| - 1];
      SweepClosesTheMissing(s, front);
      assert order == front + [last];
    }
  }

  /** The round is the sweep of the step-by-step model, from its snapshot to its last step. */
  lemma {:induction false} SweepIsARun(s: State, order: seq<nat>, rest: seq<nat>) returns (events: seq<Event>)
    requires forall k :: 0 <= k < |order| ==> order[k] < |s.requests|
    ensures forall e :: e in events ==> e == SweepOn
    ensures IsRun(s.(sweep := Visiting(order + rest)), events)
    ensures Run(s.(sweep := Visiting(order + rest)), events) == SweepAll(s, order).(sweep := Visiting(rest))
    decreases |order|
  {
    if order == [] {
      events := [];
      assert order + rest == rest;
    } else {
      var front, last := order[..|order| - 1], order[|order| - 1];
      assert order + rest == front + ([last] + rest);
      var first := SweepIsARun(s, front, [last] + rest);
      var t := SweepAll(s, front);
      var more := SweepOneSteps(t, last, rest);
      RunConcat(s.(sweep := Visiting(order + rest)), first, more);
      events := first + more;
    }
  }

  lemma SweepOneSteps(t: State, i: nat, rest: seq<nat>) returns (events: seq<Event>)
    requires i < |t.requests|
    ensures forall e :: e in events ==> e == SweepOn
    ensures IsRun(t.(sweep := Visiting([i] + rest)), events)
    ensures Run(t.(sweep := Visiting([i] + rest)), events) == SweepOne(t, i).(sweep := Visiting(rest))
  {
    var s0 := t.(sweep := Visiting([i] + rest));
    assert ([i] + rest)[1..] == rest;
    var s1 := Next(s0, SweepOn);
    if t.requests[i].id in t.storage {
      events := [SweepOn];
      RunOne(s0, SweepOn, []);
    } else {
      var s2 := Next(s1, SweepOn);
      var s3 := Next(s2, SweepOn);
      RunOne(s3, SweepOn, []);
      RunOne(s2, SweepOn, [SweepOn]);
      RunOne(s1, SweepOn, [SweepOn, SweepOn]);
      RunOne(s0, SweepOn, [SweepOn, SweepOn, SweepOn]);
      events := [SweepOn] + ([SweepOn] + ([SweepOn] + ([SweepOn] + [])));
      assert events == [SweepOn, SweepOn, SweepOn, SweepOn];
    }
  }

  lemma RunOne(s: State, e: Event, rest: seq<Event>)
    requires Enabled(s, e) && IsRun(Next(s, e), rest)
    ensures IsRun(s, [e] + rest) && Run(s, [e] + rest) == Run(Next(s, e), rest)
  {
    assert ([e] + rest)[1..] == rest;
  }

  lemma {:induction false} RunConcat(s: State, a: seq<Event>, b: seq<Event>)
    requires IsRun(s, a) && IsRun(Run(s, a), b)
    ensures IsRun(s, a + b) && Run(s, a + b) == Run(Run(s, a), b)
    decreases |a|
  {
    if a == [] {
      assert a + b == b;
    } else {
      RunConcat(Next(s, a[0]), a[1..], b);
      RunOne(s, a[0], a[1..] + b);
      assert [a[0]] + (a[1..] + b) == a + b;
    }
  }
}
