/** Requests, sends, sweeps and expiry interleaved step by step over one map of clients and one shared storage. */
module SseLifecycle {
  type Id = string

  /** `ConcurrentDictionary.TryAdd`: an id already there keeps its client. */
  function TryAdd<C>(clients: map<Id, C>, id: Id, client: C): map<Id, C> {
    if id in clients then clients else clients[id := client]
  }

  /** `ConcurrentDictionary.TryRemove`: by id, whoever the client is. */
  function TryRemove<C>(clients: map<Id, C>, id: Id): map<Id, C> { clients - {id} }

  /** Where a request is; each stage names the last thing it did. */
  datatype Stage =
    | Arrived
    | NotInMap
    | Refused
    | Accepted
    | Stored
    | Waiting
    | Disconnected
    | Forgotten
    | Finished

  /** A request and the client made for it; the client is connected until someone disconnects it. */
  datatype Request = Request(id: Id, stage: Stage, connected: bool, aborted: bool)

  /** The background service: its snapshot of clients still to visit, and how far it is with one of them. */
  datatype Sweep =
    | Resting
    | Visiting(rest: seq<nat>)
    | Missing(client: nat, rest: seq<nat>)
    | Closed(client: nat, rest: seq<nat>)
    | Erased(client: nat, rest: seq<nat>)

  /** Clients are known by their request's position. `found` and `checked` are the sends under way: those that
      have looked their client up, and those that have also seen it connected. */
  datatype State = State(
    requests: seq<Request>,
    clients: map<Id, nat>,
    storage: set<Id>,
    sweep: Sweep,
    found: multiset<nat>,
    checked: multiset<nat>)

  datatype Event =
    | Arrive(id: Id)
    | Proceed(request: nat)
    | Abort(request: nat)
    | StartSweep(order: seq<nat>)
    | SweepOn
    | StartSend(id: Id)
    | CheckSend(client: nat)
    | UpdateStorage(client: nat)
    | Expire(id: Id)

  function Start(storage: set<Id>): State { State([], map[], storage, Resting, multiset{}, multiset{}) }

  function At(s: State, i: nat, stage: Stage): State
    requires i < |s.requests|
  {
    s.(requests := s.requests[i := s.requests[i].(stage := stage)])
  }

  /** `SseClient.Disconnect` aborts the request the first time. */
  function Disconnect(s: State, i: nat): State
    requires i < |s.requests|
  {
    var r := s.requests[i];
    s.(requests := s.requests[i := r.(connected := false, aborted := r.aborted || r.connected)])
  }

  predicate CanProceed(r: Request) {
    match r.stage
    case Refused | Finished => false
    case Waiting => r.aborted
    case _ => true
  }

  predicate Enabled(s: State, e: Event) {
    match e
    case Arrive(_) => true
    case Proceed(i) => i < |s.requests| && CanProceed(s.requests[i])
    case Abort(i) => i < |s.requests|
    case StartSweep(order) => s.sweep.Resting? && forall i :: i in order ==> i in s.clients.Values
    case SweepOn => !s.sweep.Resting? && SweepWithin(s.sweep, |s.requests|)
    case StartSend(id) => id in s.clients
    case CheckSend(i) => i in s.found && i < |s.requests|
    case UpdateStorage(i) => i in s.checked && i < |s.requests|
    case Expire(_) => true
  }

  /** The sweep's next client is one of the first `n` requests. */
  predicate SweepWithin(sweep: Sweep, n: nat) {
    match sweep
    case Resting => true
    case Visiting(rest) => rest != [] ==> rest[0] < n
    case Missing(i, _) => i < n
    case Closed(i, _) => i < n
    case Erased(i, _) => i < n
  }

  /** One step of a request through the middleware and the service. */
  function Advance(s: State, i: nat): State
    requires i < |s.requests| && CanProceed(s.requests[i])
  {
    var id := s.requests[i].id;
    match s.requests[i].stage
    case Arrived => At(s, i, if id in s.clients then Refused else NotInMap)
    case NotInMap => At(s, i, if id in s.storage then Refused else Accepted)
    case Accepted => At(s, i, Stored).(storage := s.storage + {id})
    case Stored => At(s, i, Waiting).(clients := TryAdd(s.clients, id, i))
    case Waiting => At(Disconnect(s, i), i, Disconnected)
    case Disconnected => At(s, i, Forgotten).(storage := s.storage - {id})
    case Forgotten => At(s, i, Finished).(clients := TryRemove(s.clients, id))
  }

  /** One step of the sweep: only a client whose id is not in the storage is closed. */
  function SweepStep(s: State): State
    requires Enabled(s, SweepOn)
  {
    match s.sweep
    case Visiting(rest) =>
      if rest == [] then s.(sweep := Resting)
      else if s.requests[rest[0]].id in s.storage then s.(sweep := Visiting(rest[1..]))
      else s.(sweep := Missing(rest[0], rest[1..]))
    case Missing(i, rest) => Disconnect(s, i).(sweep := Closed(i, rest))
    case Closed(i, rest) => s.(storage := s.storage - {s.requests[i].id}, sweep := Erased(i, rest))
    case Erased(i, rest) => s.(clients := TryRemove(s.clients, s.requests[i].id), sweep := Visiting(rest))
  }

  function Next(s: State, e: Event): State
    requires Enabled(s, e)
  {
    match e
    case Arrive(id) => s.(requests := s.requests + [Request(id, Arrived, true, false)])
    case Proceed(i) => Advance(s, i)
    case Abort(i) => s.(requests := s.requests[i := s.requests[i].(aborted := true)])
    case StartSweep(order) => s.(sweep := Visiting(order))
    case SweepOn => SweepStep(s)
    case StartSend(id) => s.(found := s.found + multiset{s.clients[id]})
    case CheckSend(i) =>
      s.(found := s.found - multiset{i},
         checked := if s.requests[i].connected then s.checked + multiset{i} else s.checked)
    case UpdateStorage(i) => s.(storage := s.storage + {s.requests[i].id}, checked := s.checked - multiset{i})
    case Expire(id) => s.(storage := s.storage - {id})
  }

  predicate IsRun(s: State, events: seq<Event>)
    decreases |events|
  {
    events == [] || (Enabled(s, events[0]) && IsRun(Next(s, events[0]), events[1..]))
  }

  function Run(s: State, events: seq<Event>): State
    requires IsRun(s, events)
    decreases |events|
  {
    if events == [] then s else Run(Next(s, events[0]), events[1..])
  }

  // ----- when an id may come -----

  /** The sweep has the client in hand or still ahead of it. */
  predicate InSweep(sweep: Sweep, i: nat) {
    match sweep
    case Resting => false
    case Visiting(rest) => i in rest
    case Missing(j, rest) => i == j || i in rest
    case Closed(j, rest) => i == j || i in rest
    case Erased(j, rest) => i == j || i in rest
  }

  /** The request was let in and has not left, or the sweep will still remove its id. */
  predicate InUse(s: State, i: nat)
    requires i < |s.requests|
  {
    match s.requests[i].stage
    case Arrived | NotInMap | Refused => false
    case Finished => InSweep(s.sweep, i)
    case _ => true
  }

  /** The step that lets a request in: the second of the two questions, answered no. */
  predicate Admits(s: State, e: Event) {
    && e.Proceed? && e.request < |s.requests|
    && s.requests[e.request].stage == NotInMap && s.requests[e.request].id !in s.storage
  }

  /** No other request uses the id. */
  predicate Free(s: State, i: nat)
    requires i < |s.requests|
  {
    forall j :: 0 <= j < |s.requests| && j != i && s.requests[j].id == s.requests[i].id ==> !InUse(s, j)
  }

  /** Whoever is let in during the run has its id to itself by then. Refused requests may come with any id. */
  predicate FreeAdmissions(s: State, events: seq<Event>)
    requires IsRun(s, events)
    decreases |events|
  {
    events == [] ||
    ((Admits(s, events[0]) ==> Free(s, events[0].request)) && FreeAdmissions(Next(s, events[0]), events[1..]))
  }

  /** The request has finished, and neither the sweep nor a send will act on its id again. A send that has only
      found the client will see it disconnected and stop. */
  predicate Gone(s: State, i: nat)
    requires i < |s.requests|
  {
    s.requests[i].stage == Finished && !InSweep(s.sweep, i) && i !in s.checked
  }

  /** The id is not in the storage, and every earlier request that came with it is gone. */
  predicate Quiet(s: State, id: Id) {
    id !in s.storage && forall i :: 0 <= i < |s.requests| && s.requests[i].id == id ==> Gone(s, i)
  }

  /** Every id that arrives in the run is quiet by then; a new id is, unless other processes stored it. */
  predicate QuietArrivals(s: State, events: seq<Event>)
    requires IsRun(s, events)
    decreases |events|
  {
    events == [] ||
    ((events[0].Arrive? ==> Quiet(s, events[0].id)) && QuietArrivals(Next(s, events[0]), events[1..]))
  }

  /** The ids that have expired and were not stored again since, and those that ever expired. */
  datatype Lapses = Lapses(now: set<Id>, ever: set<Id>)

  const NO_LAPSES := Lapses({}, {})

  function Lapse(l: Lapses, s: State, e: Event): Lapses
    requires Enabled(s, e)
  {
    match e
    case Expire(id) => Lapses(l.now + {id}, l.ever + {id})
    case UpdateStorage(i) => l.(now := l.now - {s.requests[i].id})
    case Proceed(i) => if s.requests[i].stage == Accepted then l.(now := l.now - {s.requests[i].id}) else l
    case _ => l
  }

  function LapsesAfter(l: Lapses, s: State, events: seq<Event>): Lapses
    requires IsRun(s, events)
    decreases |events|
  {
    if events == [] then l else LapsesAfter(Lapse(l, s, events[0]), Next(s, events[0]), events[1..])
  }
}
