/** What every interleaving keeps as long as whoever is let in has its id to itself. */
module SseLifecycleProperties {
  import opened SseLifecycle

  /** The client has been in the map. */
  predicate Listed(stage: Stage) {
    stage == Waiting || stage == Disconnected || stage == Forgotten || stage == Finished
  }

  /** The id is in the storage, unless it has expired there since it was last stored. */
  predicate Alive(s: State, id: Id, l: Lapses) { id in s.storage || id in l.now }

  predicate RequestTidy(s: State, i: nat, l: Lapses)
    requires i < |s.requests|
  {
    var r := s.requests[i];
    match r.stage
    case Arrived | NotInMap | Refused => r.connected
    case Accepted => r.connected && r.id !in s.clients
    case Stored => r.connected && r.id !in s.clients && Alive(s, r.id, l)
    case Waiting => r.connected ==> r.id in s.clients && s.clients[r.id] == i && Alive(s, r.id, l)
    case Disconnected | Forgotten => !r.connected
    case Finished => !r.connected && (r.id in s.clients ==> s.clients[r.id] != i)
  }

  predicate EntryTidy(s: State, id: Id)
    requires id in s.clients
  {
    var i := s.clients[id];
    i < |s.requests| && s.requests[i].id == id && Listed(s.requests[i].stage) && s.requests[i].stage != Finished
  }

  predicate IsListed(s: State, i: nat) { i < |s.requests| && Listed(s.requests[i].stage) }

  predicate AllListed(s: State, order: seq<nat>) { forall k :: 0 <= k < |order| ==> IsListed(s, order[k]) }

  predicate SweepTidy(s: State, l: Lapses) {
    match s.sweep
    case Resting => true
    case Visiting(rest) => AllListed(s, rest)
    case Missing(i, rest) =>
      AllListed(s, rest) && IsListed(s, i) && (s.requests[i].connected ==> s.requests[i].id in l.ever)
    case Closed(i, rest) => AllListed(s, rest) && IsListed(s, i) && !s.requests[i].connected
    case Erased(i, rest) => AllListed(s, rest) && IsListed(s, i) && !s.requests[i].connected
  }

  /** No two requests use one id. */
  predicate OneAtATime(s: State) {
    forall i, j :: 0 <= i < |s.requests| && 0 <= j < |s.requests| && i != j && s.requests[i].id == s.requests[j].id
      ==> !InUse(s, i) || !InUse(s, j)
  }

  predicate Tidy(s: State, l: Lapses) {
    && OneAtATime(s) && l.now <= l.ever
    && (forall i :: 0 <= i < |s.requests| ==> RequestTidy(s, i, l))
    && (forall id :: id in s.clients ==> EntryTidy(s, id))
    && Watched(s, l)
  }

  /** Sweep and sends only hold clients that have been in the map. */
  predicate Watched(s: State, l: Lapses) {
    && SweepTidy(s, l)
    && (forall i :: i in s.found ==> IsListed(s, i))
    && (forall i :: i in s.checked ==> IsListed(s, i))
  }

  /** Requests keep their ids, stay listed once they are, and never reconnect. */
  predicate Grows(s: State, t: State) {
    && |s.requests| <= |t.requests|
    && forall i :: 0 <= i < |s.requests| ==>
         && t.requests[i].id == s.requests[i].id
         && (Listed(s.requests[i].stage) ==> Listed(t.requests[i].stage))
         && (t.requests[i].connected ==> s.requests[i].connected)
  }

  lemma GrowthKeepsWatch(s: State, t: State, l: Lapses, k: Lapses)
    requires Watched(s, l) && Grows(s, t) && l.ever <= k.ever
    requires t.sweep == s.sweep && t.found == s.found && t.checked == s.checked
    ensures Watched(t, k)
  {
    match s.sweep
    case Resting =>
    case Visiting(rest) => ListedStay(s, t, rest);
    case Missing(_, rest) => ListedStay(s, t, rest);
    case Closed(_, rest) => ListedStay(s, t, rest);
    case Erased(_, rest) => ListedStay(s, t, rest);
  }

  lemma ListedStay(s: State, t: State, order: seq<nat>)
    requires Grows(s, t) && AllListed(s, order)
    ensures AllListed(t, order)
  {
    forall k | 0 <= k < |order| ensures IsListed(t, order[k]) { assert IsListed(s, order[k]); }
  }

  // ----- an id is used once at a time -----

  lemma ListedIsInUse(s: State, l: Lapses, i: nat)
    requires Tidy(s, l) && i in s.clients.Values
    ensures IsListed(s, i) && InUse(s, i) && s.requests[i].stage != Finished
  {
    var id :| id in s.clients && s.clients[id] == i;
    assert EntryTidy(s, id);
  }

  lemma SameIdIsUnused(s: State, i: nat, j: nat)
    requires OneAtATime(s) && i < |s.requests| && j < |s.requests| && i != j && s.requests[i].id == s.requests[j].id
    requires InUse(s, i)
    ensures !InUse(s, j)
  {
  }

  /** Only by being let in does a request come to use its id: who has left for good never does again. */
  lemma UnusedStays(s: State, e: Event, l: Lapses, i: nat)
    requires Tidy(s, l) && Enabled(s, e) && i < |s.requests| && !InUse(s, i) && !(Admits(s, e) && e.request == i)
    ensures i < |Next(s, e).requests| && !InUse(Next(s, e), i) && Next(s, e).requests[i].id == s.requests[i].id
  {
    match e
    case StartSweep(order) =>
      if i in order { ListedIsInUse(s, l, i); }
    case SweepOn => SweepKeepsStage(s, i);
    case Proceed(_) =>
    case _ =>
  }

  lemma SweepKeepsStage(s: State, i: nat)
    requires Enabled(s, SweepOn) && i < |s.requests|
    ensures i < |SweepStep(s).requests|
    ensures SweepStep(s).requests[i].stage == s.requests[i].stage && SweepStep(s).requests[i].id == s.requests[i].id
    ensures InSweep(SweepStep(s).sweep, i) ==> InSweep(s.sweep, i)
  {
    if s.sweep.Visiting? && s.sweep.rest != [] {
      assert s.sweep.rest[0] in s.sweep.rest;
      assert forall k :: k in s.sweep.rest[1..] ==> k in s.sweep.rest;
    }
  }

  lemma StaysOneAtATime(s: State, e: Event, l: Lapses)
    requires Tidy(s, l) && Enabled(s, e) && (Admits(s, e) ==> Free(s, e.request))
    ensures OneAtATime(Next(s, e))
  {
    var t := Next(s, e);
    forall i, j | 0 <= i < |t.requests| && 0 <= j < |t.requests| && i != j && t.requests[i].id == t.requests[j].id
      ensures !InUse(t, i) || !InUse(t, j)
    {
      if i < |s.requests| && j < |s.requests| { PairStays(s, e, l, i, j); }
    }
  }

  lemma PairStays(s: State, e: Event, l: Lapses, i: nat, j: nat)
    requires Tidy(s, l) && Enabled(s, e) && (Admits(s, e) ==> Free(s, e.request))
    requires i < |s.requests| && j < |s.requests| && i != j
    ensures i < |Next(s, e).requests| && j < |Next(s, e).requests|
    ensures Next(s, e).requests[i].id == Next(s, e).requests[j].id ==> !InUse(Next(s, e), i) || !InUse(Next(s, e), j)
  {
    SameRequests(s, e);
    if s.requests[i].id == s.requests[j].id {
      if Admits(s, e) && e.request == i {
        UnusedStays(s, e, l, j);
      } else if Admits(s, e) && e.request == j {
        UnusedStays(s, e, l, i);
      } else if InUse(s, i) {
        UnusedStays(s, e, l, j);
      } else {
        UnusedStays(s, e, l, i);
      }
    }
  }

  lemma SameRequests(s: State, e: Event)
    requires Enabled(s, e)
    ensures |s.requests| <= |Next(s, e).requests|
    ensures forall i :: 0 <= i < |s.requests| ==> Next(s, e).requests[i].id == s.requests[i].id
  {
  }

  // ----- requests -----

  lemma EntryRequest(s: State, id: Id, l: Lapses)
    requires Tidy(s, l) && id in s.clients
    ensures EntryTidy(s, id)
  {
    assert EntryTidy(s, id);
  }

  lemma ArriveKeepsTidy(s: State, id: Id, l: Lapses)
    requires Tidy(s, l)
    ensures Tidy(Next(s, Arrive(id)), l)
  {
    var t := Next(s, Arrive(id));
    StaysOneAtATime(s, Arrive(id), l);
    forall i | 0 <= i < |t.requests| ensures RequestTidy(t, i, l) {
      if i < |s.requests| { assert RequestTidy(s, i, l); }
    }
    forall d | d in s.clients ensures EntryTidy(t, d) { assert EntryTidy(s, d); }
    GrowthKeepsWatch(s, t, l, l);
  }

  /** Nobody is listed under an id that is free. */
  lemma FreeIsUnlisted(s: State, i: nat, l: Lapses)
    requires Tidy(s, l) && i < |s.requests| && s.requests[i].stage == NotInMap && Free(s, i)
    ensures s.requests[i].id !in s.clients
  {
    if s.requests[i].id in s.clients { EntryRequest(s, s.requests[i].id, l); }
  }

  lemma ProceedKeepsTidy(s: State, i: nat, l: Lapses)
    requires Tidy(s, l) && Enabled(s, Proceed(i)) && (Admits(s, Proceed(i)) ==> Free(s, i))
    ensures Tidy(Next(s, Proceed(i)), Lapse(l, s, Proceed(i)))
  {
    var t, k := Next(s, Proceed(i)), Lapse(l, s, Proceed(i));
    ProceedGrows(s, i);
    StaysOneAtATime(s, Proceed(i), l);
    forall j | 0 <= j < |t.requests| ensures RequestTidy(t, j, k) {
      assert RequestTidy(s, j, l);
      if i == j {
        if Admits(s, Proceed(i)) { FreeIsUnlisted(s, i, l); }
        OwnStep(s, i, l);
      } else {
        if s.requests[i].id == s.requests[j].id && InUse(s, i) { SameIdIsUnused(s, i, j); }
        OthersStep(s, i, j, l);
      }
    }
    forall id | id in t.clients ensures EntryTidy(t, id) {
      assert RequestTidy(s, i, l);
      if id in s.clients { assert EntryTidy(s, id); }
      EntryStep(s, i, id, l);
    }
    GrowthKeepsWatch(s, t, l, k);
  }

  lemma ProceedGrows(s: State, i: nat)
    requires Enabled(s, Proceed(i))
    ensures var t := Next(s, Proceed(i));
      && Grows(s, t) && |t.requests| == |s.requests|
      && t.sweep == s.sweep && t.found == s.found && t.checked == s.checked
      && forall j :: 0 <= j < |s.requests| && j != i ==> t.requests[j] == s.requests[j]
  {
  }

  lemma OwnStep(s: State, i: nat, l: Lapses)
    requires Enabled(s, Proceed(i)) && RequestTidy(s, i, l)
    requires Admits(s, Proceed(i)) ==> s.requests[i].id !in s.clients
    ensures RequestTidy(Next(s, Proceed(i)), i, Lapse(l, s, Proceed(i)))
  {
  }

  lemma OthersStep(s: State, i: nat, j: nat, l: Lapses)
    requires Enabled(s, Proceed(i)) && i != j && j < |s.requests| && RequestTidy(s, j, l)
    requires s.requests[i].id == s.requests[j].id && InUse(s, i) ==> !InUse(s, j)
    ensures RequestTidy(Next(s, Proceed(i)), j, Lapse(l, s, Proceed(i)))
  {
  }

  lemma EntryStep(s: State, i: nat, id: Id, l: Lapses)
    requires Enabled(s, Proceed(i)) && id in Next(s, Proceed(i)).clients
    requires RequestTidy(s, i, l) && (id in s.clients ==> EntryTidy(s, id))
    ensures EntryTidy(Next(s, Proceed(i)), id)
  {
  }

  lemma AbortKeepsTidy(s: State, i: nat, l: Lapses)
    requires Tidy(s, l) && Enabled(s, Abort(i))
    ensures Tidy(Next(s, Abort(i)), l)
  {
    var t := Next(s, Abort(i));
    StaysOneAtATime(s, Abort(i), l);
    forall j | 0 <= j < |t.requests| ensures RequestTidy(t, j, l) { assert RequestTidy(s, j, l); }
    forall id | id in t.clients ensures EntryTidy(t, id) { assert EntryTidy(s, id); }
    GrowthKeepsWatch(s, t, l, l);
  }

  // ----- sweeps -----

  lemma StartSweepKeepsTidy(s: State, order: seq<nat>, l: Lapses)
    requires Tidy(s, l) && Enabled(s, StartSweep(order))
    ensures Tidy(Next(s, StartSweep(order)), l)
  {
    var t := Next(s, StartSweep(order));
    StaysOneAtATime(s, StartSweep(order), l);
    forall j | 0 <= j < |t.requests| ensures RequestTidy(t, j, l) { assert RequestTidy(s, j, l); }
    forall id | id in t.clients ensures EntryTidy(t, id) { assert EntryTidy(s, id); }
    forall k | 0 <= k < |order| ensures IsListed(t, order[k]) {
      assert order[k] in order;
      ListedIsInUse(s, l, order[k]);
    }
  }

  /** The storage question: a listed client that is connected and missing from the storage has expired. */
  lemma VisitKeepsTidy(s: State, l: Lapses)
    requires Tidy(s, l) && Enabled(s, SweepOn) && s.sweep.Visiting?
    ensures Tidy(Next(s, SweepOn), l)
  {
    var t := Next(s, SweepOn);
    StaysOneAtATime(s, SweepOn, l);
    forall j | 0 <= j < |t.requests| ensures RequestTidy(t, j, l) { assert RequestTidy(s, j, l); }
    forall id | id in t.clients ensures EntryTidy(t, id) { assert EntryTidy(s, id); }
    VisitKeepsWatch(s, l);
  }

  lemma VisitKeepsWatch(s: State, l: Lapses)
    requires Watched(s, l) && Enabled(s, SweepOn) && s.sweep.Visiting? && l.now <= l.ever
    requires forall i :: 0 <= i < |s.requests| ==> RequestTidy(s, i, l)
    ensures Watched(Next(s, SweepOn), l)
  {
    var t, rest := Next(s, SweepOn), s.sweep.rest;
    if rest != [] {
      assert IsListed(s, rest[0]) && RequestTidy(s, rest[0], l);
      forall k | 0 <= k < |rest[1..]| ensures IsListed(t, rest[1..][k]) { assert IsListed(s, rest[k + 1]); }
    }
  }

  /** Closing a listed client: it is disconnected, then its id is removed from the storage and from the map. */
  lemma CloseKeepsTidy(s: State, l: Lapses)
    requires Tidy(s, l) && Enabled(s, SweepOn) && !s.sweep.Visiting?
    ensures Tidy(Next(s, SweepOn), l)
  {
    var t := Next(s, SweepOn);
    StaysOneAtATime(s, SweepOn, l);
    forall j | 0 <= j < |t.requests| ensures RequestTidy(t, j, l) { CloseRequest(s, j, l); }
    forall id | id in t.clients ensures EntryTidy(t, id) { assert EntryTidy(s, id); }
    CloseKeepsWatch(s, l);
  }

  lemma CloseKeepsWatch(s: State, l: Lapses)
    requires Watched(s, l) && Enabled(s, SweepOn) && !s.sweep.Visiting?
    ensures Watched(Next(s, SweepOn), l)
  {
    assert Grows(s, Next(s, SweepOn));
    ListedStay(s, Next(s, SweepOn), s.sweep.rest);
  }

  lemma CloseRequest(s: State, j: nat, l: Lapses)
    requires Tidy(s, l) && Enabled(s, SweepOn) && !s.sweep.Visiting? && j < |s.requests|
    ensures RequestTidy(Next(s, SweepOn), j, l)
  {
    var i := s.sweep.client;
    assert RequestTidy(s, j, l) && IsListed(s, i);
    if i != j && s.requests[i].id == s.requests[j].id { SameIdIsUnused(s, i, j); }
  }

  // ----- sends and expiry -----

  lemma StartSendKeepsTidy(s: State, id: Id, l: Lapses)
    requires Tidy(s, l) && Enabled(s, StartSend(id))
    ensures Tidy(Next(s, StartSend(id)), l)
  {
    var t := Next(s, StartSend(id));
    StaysOneAtATime(s, StartSend(id), l);
    forall j | 0 <= j < |t.requests| ensures RequestTidy(t, j, l) { assert RequestTidy(s, j, l); }
    forall d | d in t.clients ensures EntryTidy(t, d) { assert EntryTidy(s, d); }
    GrowthKeepsWatch(s, t.(found := s.found), l, l);
    assert EntryTidy(s, id);
  }

  lemma CheckSendKeepsTidy(s: State, i: nat, l: Lapses)
    requires Tidy(s, l) && Enabled(s, CheckSend(i))
    ensures Tidy(Next(s, CheckSend(i)), l)
  {
    var t := Next(s, CheckSend(i));
    StaysOneAtATime(s, CheckSend(i), l);
    forall j | 0 <= j < |t.requests| ensures RequestTidy(t, j, l) { assert RequestTidy(s, j, l); }
    forall d | d in t.clients ensures EntryTidy(t, d) { assert EntryTidy(s, d); }
    GrowthKeepsWatch(s, t.(found := s.found, checked := s.checked), l, l);
    assert IsListed(s, i);
  }

  /** The late update may put the id of a client that has left back into the storage. */
  lemma UpdateKeepsTidy(s: State, i: nat, l: Lapses)
    requires Tidy(s, l) && Enabled(s, UpdateStorage(i))
    ensures Tidy(Next(s, UpdateStorage(i)), Lapse(l, s, UpdateStorage(i)))
  {
    var t, k := Next(s, UpdateStorage(i)), Lapse(l, s, UpdateStorage(i));
    StaysOneAtATime(s, UpdateStorage(i), l);
    forall j | 0 <= j < |t.requests| ensures RequestTidy(t, j, k) { UpdateRequest(s, i, j, l); }
    forall d | d in t.clients ensures EntryTidy(t, d) { assert EntryTidy(s, d); }
    GrowthKeepsWatch(s, t.(checked := s.checked), l, k);
  }

  lemma UpdateRequest(s: State, i: nat, j: nat, l: Lapses)
    requires Tidy(s, l) && Enabled(s, UpdateStorage(i)) && j < |s.requests|
    ensures RequestTidy(Next(s, UpdateStorage(i)), j, Lapse(l, s, UpdateStorage(i)))
  {
    assert RequestTidy(s, j, l);
  }

  lemma ExpireKeepsTidy(s: State, id: Id, l: Lapses)
    requires Tidy(s, l)
    ensures Tidy(Next(s, Expire(id)), Lapse(l, s, Expire(id)))
  {
    var t, k := Next(s, Expire(id)), Lapse(l, s, Expire(id));
    StaysOneAtATime(s, Expire(id), l);
    forall j | 0 <= j < |t.requests| ensures RequestTidy(t, j, k) { assert RequestTidy(s, j, l); }
    forall d | d in t.clients ensures EntryTidy(t, d) { assert EntryTidy(s, d); }
    GrowthKeepsWatch(s, t, l, k);
  }

  // ----- whole runs -----

  lemma StepKeepsTidy(s: State, e: Event, l: Lapses)
    requires Tidy(s, l) && Enabled(s, e) && (Admits(s, e) ==> Free(s, e.request))
    ensures Tidy(Next(s, e), Lapse(l, s, e))
  {
    match e
    case Arrive(id) => ArriveKeepsTidy(s, id, l);
    case Proceed(i) => ProceedKeepsTidy(s, i, l);
    case Abort(i) => AbortKeepsTidy(s, i, l);
    case StartSweep(order) => StartSweepKeepsTidy(s, order, l);
    case SweepOn => if s.sweep.Visiting? { VisitKeepsTidy(s, l); } else { CloseKeepsTidy(s, l); }
    case StartSend(id) => StartSendKeepsTidy(s, id, l);
    case CheckSend(i) => CheckSendKeepsTidy(s, i, l);
    case UpdateStorage(i) => UpdateKeepsTidy(s, i, l);
    case Expire(id) => ExpireKeepsTidy(s, id, l);
  }

  lemma {:induction false} RunKeepsTidy(s: State, events: seq<Event>, l: Lapses)
    requires Tidy(s, l) && IsRun(s, events) && FreeAdmissions(s, events)
    ensures Tidy(Run(s, events), LapsesAfter(l, s, events))
    decreases |events|
  {
    if events != [] {
      StepKeepsTidy(s, events[0], l);
      RunKeepsTidy(Next(s, events[0]), events[1..], Lapse(l, s, events[0]));
    }
  }

  lemma EveryRunIsTidy(storage: set<Id>, events: seq<Event>)
    requires IsRun(Start(storage), events) && FreeAdmissions(Start(storage), events)
    ensures Tidy(Run(Start(storage), events), LapsesAfter(NO_LAPSES, Start(storage), events))
  {
    RunKeepsTidy(Start(storage), events, NO_LAPSES);
  }

  /** A client that waits and is connected can be reached by its id, and its id is in the storage unless it
      expired there and was not stored again. */
  lemma ConnectedClientsAreReachable(storage: set<Id>, events: seq<Event>, i: nat)
    requires IsRun(Start(storage), events) && FreeAdmissions(Start(storage), events)
    requires i < |Run(Start(storage), events).requests|
    ensures var s := Run(Start(storage), events);
      var r := s.requests[i];
      r.stage == Waiting && r.connected ==>
        r.id in s.clients && s.clients[r.id] == i && Alive(s, r.id, LapsesAfter(NO_LAPSES, Start(storage), events))
  {
    EveryRunIsTidy(storage, events);
    assert RequestTidy(Run(Start(storage), events), i, LapsesAfter(NO_LAPSES, Start(storage), events));
  }

  /** A sweep that visits a connected client and does not find its id in the storage: the id has expired there and
      was not stored again since. */
  lemma SweepFindsOnlyTheLapsed(storage: set<Id>, events: seq<Event>)
    requires IsRun(Start(storage), events) && FreeAdmissions(Start(storage), events)
    ensures var s, l := Run(Start(storage), events), LapsesAfter(NO_LAPSES, Start(storage), events);
      s.sweep.Visiting? && s.sweep.rest != [] ==>
        && s.sweep.rest[0] < |s.requests|
        && (var r := s.requests[s.sweep.rest[0]]; r.connected && r.id !in s.storage ==> r.id in l.now)
  {
    var s, l := Run(Start(storage), events), LapsesAfter(NO_LAPSES, Start(storage), events);
    EveryRunIsTidy(storage, events);
    if s.sweep.Visiting? && s.sweep.rest != [] {
      assert IsListed(s, s.sweep.rest[0]) && RequestTidy(s, s.sweep.rest[0], l);
    }
  }

  /** A sweep about to disconnect a client is the first to do so only if its id has expired. */
  lemma SweepsCloseOnlyTheExpired(storage: set<Id>, events: seq<Event>)
    requires IsRun(Start(storage), events) && FreeAdmissions(Start(storage), events)
    ensures var s := Run(Start(storage), events);
      s.sweep.Missing? ==>
        && s.sweep.client < |s.requests|
        && (s.requests[s.sweep.client].connected ==>
              s.requests[s.sweep.client].id in LapsesAfter(NO_LAPSES, Start(storage), events).ever)
  {
    EveryRunIsTidy(storage, events);
  }

  /** Every connected client of the map waits under its own id, which is in the storage unless it lapsed. */
  lemma ListedClientsAreAlive(s: State, l: Lapses, id: Id)
    requires Tidy(s, l) && id in s.clients
    ensures s.clients[id] < |s.requests| && s.requests[s.clients[id]].id == id
    ensures s.requests[s.clients[id]].connected ==> s.requests[s.clients[id]].stage == Waiting && Alive(s, id, l)
  {
    EntryRequest(s, id, l);
    assert RequestTidy(s, s.clients[id], l);
  }

  lemma {:induction false} NothingExpires(l: Lapses, s: State, events: seq<Event>)
    requires IsRun(s, events) && l == NO_LAPSES && forall e :: e in events ==> !e.Expire?
    ensures LapsesAfter(l, s, events) == NO_LAPSES
    decreases |events|
  {
    if events != [] {
      assert events[0] in events && forall e :: e in events[1..] ==> e in events;
      assert Lapse(l, s, events[0]) == NO_LAPSES;
      NothingExpires(l, Next(s, events[0]), events[1..]);
    }
  }

  /** Without expiry every connected client of the map is in the storage, and no sweep is ever the first to
      disconnect one. */
  lemma SweepsAreIdleWithoutExpiry(storage: set<Id>, events: seq<Event>)
    requires IsRun(Start(storage), events) && FreeAdmissions(Start(storage), events)
    requires forall e :: e in events ==> !e.Expire?
    ensures var s := Run(Start(storage), events);
      && (forall id :: id in s.clients ==> s.clients[id] < |s.requests|)
      && (forall id :: id in s.clients && s.requests[s.clients[id]].connected ==> id in s.storage)
      && (s.sweep.Missing? ==> s.sweep.client < |s.requests| && !s.requests[s.sweep.client].connected)
  {
    var s := Run(Start(storage), events);
    EveryRunIsTidy(storage, events);
    NothingExpires(NO_LAPSES, Start(storage), events);
    forall id | id in s.clients
      ensures s.clients[id] < |s.requests| && (s.requests[s.clients[id]].connected ==> id in s.storage)
    {
      ListedClientsAreAlive(s, NO_LAPSES, id);
    }
  }

  /** Connected, not aborted, and not past its wait. */
  predicate AtEase(r: Request) {
    r.connected && !r.aborted && r.stage != Disconnected && r.stage != Forgotten && r.stage != Finished
  }

  /** Nothing has disconnected anybody. */
  predicate Undisturbed(s: State) {
    s.sweep.Resting? && forall i :: 0 <= i < |s.requests| ==> AtEase(s.requests[i])
  }

  lemma StaysUndisturbed(s: State, e: Event)
    requires Undisturbed(s) && Enabled(s, e) && !e.Abort? && !e.StartSweep?
    ensures Undisturbed(Next(s, e))
  {
    var t := Next(s, e);
    forall i | 0 <= i < |t.requests| ensures AtEase(t.requests[i]) {
      if i < |s.requests| { StaysAtEase(s, e, i); }
    }
  }

  lemma StaysAtEase(s: State, e: Event, i: nat)
    requires s.sweep.Resting? && i < |s.requests| && AtEase(s.requests[i])
    requires Enabled(s, e) && !e.Abort? && !e.StartSweep?
    ensures i < |Next(s, e).requests| && AtEase(Next(s, e).requests[i])
  {
    if e.Proceed? { ProceedGrows(s, e.request); }
  }

  lemma {:induction false} RunsUndisturbed(s: State, events: seq<Event>)
    requires Undisturbed(s) && IsRun(s, events) && forall e :: e in events ==> !e.Abort? && !e.StartSweep?
    ensures Undisturbed(Run(s, events))
    decreases |events|
  {
    if events != [] {
      assert events[0] in events && forall e :: e in events[1..] ==> e in events;
      StaysUndisturbed(s, events[0]);
      RunsUndisturbed(Next(s, events[0]), events[1..]);
    }
  }

  /** Until a request is aborted or a sweep begins every client stays connected, however many requests arrive, are
      refused, let in and sent to, and whatever expires. */
  lemma NobodyLeavesUnasked(storage: set<Id>, events: seq<Event>)
    requires IsRun(Start(storage), events) && forall e :: e in events ==> !e.Abort? && !e.StartSweep?
    ensures Undisturbed(Run(Start(storage), events))
  {
    RunsUndisturbed(Start(storage), events);
  }

  /** The map is empty as soon as no request is between joining it and leaving it. */
  lemma MapEmptiesWhenAllHaveLeft(storage: set<Id>, events: seq<Event>)
    requires IsRun(Start(storage), events) && FreeAdmissions(Start(storage), events)
    requires var s := Run(Start(storage), events);
      forall i :: 0 <= i < |s.requests| ==> !Listed(s.requests[i].stage) || s.requests[i].stage == Finished
    ensures Run(Start(storage), events).clients == map[]
  {
    var s := Run(Start(storage), events);
    EveryRunIsTidy(storage, events);
    if s.clients != map[] {
      var id :| id in s.clients;
      EntryRequest(s, id, LapsesAfter(NO_LAPSES, Start(storage), events));
    }
  }
}
