/** When a client can be lost, that is, wait connected where nobody can reach it: exactly when its request was let
    in with an id that another one used. Refused requests, late renewals and expiry play no part. */
module SseLostClients {
  import opened SseLifecycle
  import opened SseLifecycleProperties

  predicate LostAt(s: State, i: nat)
    requires i < |s.requests|
  {
    var r := s.requests[i];
    r.stage == Waiting && r.connected && !(r.id in s.clients && s.clients[r.id] == i)
  }

  predicate Lost(s: State) { exists i :: 0 <= i < |s.requests| && LostAt(s, i) }

  lemma TidyIsNotLost(s: State, l: Lapses)
    requires Tidy(s, l)
    ensures !Lost(s)
  {
    forall i | 0 <= i < |s.requests| ensures !LostAt(s, i) { assert RequestTidy(s, i, l); }
  }

  /** Nobody arrives and nothing expires: what is under way goes on. */
  predicate GoesOn(events: seq<Event>) { forall e :: e in events ==> !e.Arrive? && !e.Expire? }

  /** Nobody is let in, except perhaps the n-th request. */
  predicate AdmitsOnly(s: State, events: seq<Event>, n: nat)
    requires IsRun(s, events)
    decreases |events|
  {
    events == [] || ((Admits(s, events[0]) ==> events[0].request == n) && AdmitsOnly(Next(s, events[0]), events[1..], n))
  }

  predicate AdmitsNobody(s: State, events: seq<Event>)
    requires IsRun(s, events)
    decreases |events|
  {
    events == [] || (!Admits(s, events[0]) && AdmitsNobody(Next(s, events[0]), events[1..]))
  }

  ghost predicate CanLose(s: State) {
    exists events :: GoesOn(events) && IsRun(s, events) && AdmitsNobody(s, events) && Lost(Run(s, events))
  }

  lemma LostCanLose(s: State, i: nat)
    requires i < |s.requests| && LostAt(s, i)
    ensures CanLose(s)
  {
    assert GoesOn([]) && IsRun(s, []) && AdmitsNobody(s, []) && Lost(Run(s, []));
  }

  /** One more step before a continuation that loses a client. */
  lemma LosesAfter(s: State, e: Event)
    requires Enabled(s, e) && !e.Arrive? && !e.Expire? && !Admits(s, e) && CanLose(Next(s, e))
    ensures CanLose(s)
  {
    var t := Next(s, e);
    var rest :| GoesOn(rest) && IsRun(t, rest) && AdmitsNobody(t, rest) && Lost(Run(t, rest));
    var events := [e] + rest;
    assert events[1..] == rest;
    assert GoesOn(events) && IsRun(s, events) && AdmitsNobody(s, events) && Lost(Run(s, events));
  }

  // ----- a request let in loses its place to whoever uses its id -----

  predicate Sharing(s: State, n: nat, i: nat) {
    n < |s.requests| && i < |s.requests| && i != n && s.requests[i].id == s.requests[n].id
  }

  predicate Waits(s: State, n: nat) {
    n < |s.requests| && s.requests[n].stage == Waiting && s.requests[n].connected
  }

  /** Request `i` was let in and is about to join the map. */
  predicate Joining(s: State, i: nat) {
    i < |s.requests| && s.requests[i].stage in {Accepted, Stored} && s.requests[i].connected
  }

  /** Request `i` is on its way out of the map. */
  predicate Leaving(s: State, i: nat) {
    i < |s.requests| && s.requests[i].stage in {Waiting, Disconnected, Forgotten}
  }

  /** The sweep has decided to close client `i`. */
  predicate Closing(s: State, i: nat) { !s.sweep.Resting? && !s.sweep.Visiting? && s.sweep.client == i }

  /** Of two clients only one can join the map. */
  lemma TwinIsLeftOut(s: State, n: nat, i: nat)
    requires Sharing(s, n, i) && Waits(s, n) && Joining(s, i)
    ensures CanLose(s)
    decreases match s.requests[i].stage case Accepted => 1 case _ => 0
  {
    if LostAt(s, n) {
      LostCanLose(s, n);
    } else {
      var t := Next(s, Proceed(i));
      if s.requests[i].stage == Accepted { TwinIsLeftOut(t, n, i); } else { LostCanLose(t, i); }
      LosesAfter(s, Proceed(i));
    }
  }

  lemma LeaverTakesThePlace(s: State, n: nat, i: nat)
    requires Sharing(s, n, i) && Waits(s, n) && Leaving(s, i)
    ensures CanLose(s)
    decreases match s.requests[i].stage case Waiting => (if s.requests[i].aborted then 2 else 3) case Disconnected => 1 case _ => 0
  {
    if !CanProceed(s.requests[i]) {
      LeaverTakesThePlace(Next(s, Abort(i)), n, i);
      LosesAfter(s, Abort(i));
    } else {
      var t := Next(s, Proceed(i));
      if s.requests[i].stage == Forgotten { LostCanLose(t, n); } else { LeaverTakesThePlace(t, n, i); }
      LosesAfter(s, Proceed(i));
    }
  }

  lemma SweepTakesThePlace(s: State, n: nat, i: nat)
    requires Sharing(s, n, i) && Waits(s, n) && Closing(s, i)
    ensures CanLose(s)
    decreases match s.sweep case Missing(_, _) => 2 case Closed(_, _) => 1 case _ => 0
  {
    var t := Next(s, SweepOn);
    if s.sweep.Erased? { LostCanLose(t, n); } else { SweepTakesThePlace(t, n, i); }
    LosesAfter(s, SweepOn);
  }

  /** The request connects undisturbed, and then loses its place, or keeps its twin out. */
  lemma OneLosesItsPlace(s: State, n: nat, i: nat)
    requires Sharing(s, n, i) && (Joining(s, n) || Waits(s, n)) && (Joining(s, i) || Leaving(s, i) || Closing(s, i))
    ensures CanLose(s)
    decreases match s.requests[n].stage case Accepted => 2 case Stored => 1 case _ => 0
  {
    if Waits(s, n) {
      if Joining(s, i) { TwinIsLeftOut(s, n, i); }
      else if Leaving(s, i) { LeaverTakesThePlace(s, n, i); }
      else { SweepTakesThePlace(s, n, i); }
    } else {
      OneLosesItsPlace(Next(s, Proceed(n)), n, i);
      LosesAfter(s, Proceed(n));
    }
  }

  function Ahead(sweep: Sweep): seq<nat> {
    if sweep.Resting? then [] else sweep.rest
  }

  /** The sweep has nothing to do with the n-th request. */
  predicate SweepElsewhere(s: State, n: nat) {
    && (forall k :: k in Ahead(s.sweep) ==> k < |s.requests| && k != n)
    && (s.sweep.Resting? || s.sweep.Visiting? || (s.sweep.client < |s.requests| && s.sweep.client != n))
  }

  function SweepLeft(sweep: Sweep): nat {
    4 * |Ahead(sweep)|
    + match sweep case Missing(_, _) => 3 case Closed(_, _) => 2 case Erased(_, _) => 1 case _ => 0
  }

  lemma SweepStaysElsewhere(s: State, n: nat)
    requires SweepElsewhere(s, n) && n < |s.requests| && !s.sweep.Resting?
    ensures Enabled(s, SweepOn) && SweepElsewhere(Next(s, SweepOn), n)
    ensures |Next(s, SweepOn).requests| == |s.requests| && Next(s, SweepOn).requests[n] == s.requests[n]
    ensures Next(s, SweepOn).storage <= s.storage
    ensures SweepLeft(Next(s, SweepOn).sweep) < SweepLeft(s.sweep) || Next(s, SweepOn).sweep.Resting?
  {
    if s.sweep.Visiting? && s.sweep.rest != [] {
      assert s.sweep.rest[0] in Ahead(s.sweep);
    }
    assert forall k :: k in Ahead(Next(s, SweepOn).sweep) ==> k in Ahead(s.sweep);
  }

  /** The sweep comes to a client ahead of it before the request has stored their id. */
  lemma SweepComesToIt(s: State, n: nat, i: nat)
    requires Sharing(s, n, i) && Joining(s, n) && s.requests[n].stage == Accepted && s.requests[n].id !in s.storage
    requires SweepElsewhere(s, n) && i in Ahead(s.sweep)
    ensures CanLose(s)
    decreases SweepLeft(s.sweep)
  {
    SweepStaysElsewhere(s, n);
    SweepKeepsStage(s, i);
    var rest, t := Ahead(s.sweep), Next(s, SweepOn);
    if s.sweep.Visiting? && rest[0] == i {
      OneLosesItsPlace(t, n, i);
    } else {
      if s.sweep.Visiting? { assert i in rest[1..] by { assert rest == [rest[0]] + rest[1..]; } }
      SweepComesToIt(t, n, i);
    }
    LosesAfter(s, SweepOn);
  }

  /** A request just let in while request `i` uses its id. */
  lemma UsedIdLosesAClient(s: State, n: nat, i: nat)
    requires Sharing(s, n, i) && Joining(s, n) && s.requests[n].stage == Accepted && s.requests[n].id !in s.storage
    requires SweepElsewhere(s, n) && InUse(s, i) && (s.requests[i].stage in {Accepted, Stored} ==> s.requests[i].connected)
    ensures CanLose(s)
  {
    if Joining(s, i) || Leaving(s, i) || Closing(s, i) {
      OneLosesItsPlace(s, n, i);
    } else {
      SweepComesToIt(s, n, i);
    }
  }

  lemma UnlistedIsNotSwept(s: State, l: Lapses, n: nat)
    requires Tidy(s, l) && n < |s.requests| && !Listed(s.requests[n].stage)
    ensures SweepElsewhere(s, n)
  {
    forall k | k in Ahead(s.sweep) ensures k < |s.requests| && k != n {
      var at :| 0 <= at < |Ahead(s.sweep)| && Ahead(s.sweep)[at] == k;
      assert IsListed(s, Ahead(s.sweep)[at]);
    }
  }

  lemma {:induction false} NobodyIsFree(s: State, events: seq<Event>)
    requires IsRun(s, events) && AdmitsNobody(s, events)
    ensures FreeAdmissions(s, events)
    decreases |events|
  {
    if events != [] { NobodyIsFree(Next(s, events[0]), events[1..]); }
  }

  /** Letting in a request is safe exactly when nobody else uses its id: then no continuation loses a client, whoever
      arrives, is refused or expires, until another is let in; and otherwise some continuation does. */
  lemma AdmissionIsSafeExactly(s: State, n: nat, l: Lapses)
    requires Tidy(s, l) && Admits(s, Proceed(n))
    ensures var t := Next(s, Proceed(n));
      Free(s, n) ==> forall events :: IsRun(t, events) && AdmitsNobody(t, events) ==> !Lost(Run(t, events))
    ensures Free(s, n) <==> !CanLose(Next(s, Proceed(n)))
  {
    var t := Next(s, Proceed(n));
    if Free(s, n) {
      ProceedKeepsTidy(s, n, l);
      forall events | IsRun(t, events) && AdmitsNobody(t, events) ensures !Lost(Run(t, events)) {
        var k := Lapse(l, s, Proceed(n));
        NobodyIsFree(t, events);
        RunKeepsTidy(t, events, k);
        TidyIsNotLost(Run(t, events), LapsesAfter(k, t, events));
      }
    } else {
      var i :| 0 <= i < |s.requests| && i != n && s.requests[i].id == s.requests[n].id && InUse(s, i);
      assert RequestTidy(s, i, l) && RequestTidy(s, n, l);
      UnlistedIsNotSwept(s, l, n);
      UsedIdLosesAClient(t, n, i);
    }
  }

  // ----- which arrivals can lose a client -----

  ghost predicate CanLoseWith(s: State, n: nat) {
    exists events :: IsRun(s, events) && AdmitsOnly(s, events, n) && Lost(Run(s, events))
  }

  lemma {:induction false} NobodyIsOnly(s: State, events: seq<Event>, n: nat)
    requires IsRun(s, events) && AdmitsNobody(s, events)
    ensures AdmitsOnly(s, events, n)
    decreases |events|
  {
    if events != [] { NobodyIsOnly(Next(s, events[0]), events[1..], n); }
  }

  lemma LosesAnyway(s: State, n: nat)
    requires CanLose(s)
    ensures CanLoseWith(s, n)
  {
    var events :| GoesOn(events) && IsRun(s, events) && AdmitsNobody(s, events) && Lost(Run(s, events));
    NobodyIsOnly(s, events, n);
  }

  lemma LosesWithAfter(s: State, e: Event, n: nat)
    requires Enabled(s, e) && (Admits(s, e) ==> e.request == n) && CanLoseWith(Next(s, e), n)
    ensures CanLoseWith(s, n)
  {
    var rest :| IsRun(Next(s, e), rest) && AdmitsOnly(Next(s, e), rest, n) && Lost(Run(Next(s, e), rest));
    var events := [e] + rest;
    assert events[1..] == rest;
    assert IsRun(s, events) && AdmitsOnly(s, events, n) && Lost(Run(s, events));
  }

  predicate Harmful(s: State, n: nat, i: nat) {
    && Sharing(s, n, i) && s.requests[n].connected && SweepElsewhere(s, n)
    && InUse(s, i) && (s.requests[i].stage in {Accepted, Stored} ==> s.requests[i].connected)
  }

  /** A request that was not in the map: if its id is stored it may expire. */
  lemma AskedLosesAClient(s: State, n: nat, i: nat)
    requires Harmful(s, n, i) && s.requests[n].stage == NotInMap
    ensures CanLoseWith(s, n)
    decreases if s.requests[n].id in s.storage then 1 else 0
  {
    var id := s.requests[n].id;
    if id in s.storage {
      AskedLosesAClient(Next(s, Expire(id)), n, i);
      LosesWithAfter(s, Expire(id), n);
    } else {
      UsedIdLosesAClient(Next(s, Proceed(n)), n, i);
      LosesAnyway(Next(s, Proceed(n)), n);
      LosesWithAfter(s, Proceed(n), n);
    }
  }

  /** Whoever is listed under the id is the one that uses it. */
  predicate ListedIs(s: State, id: Id, i: nat)
    requires i < |s.requests|
  {
    id in s.clients ==> s.clients[id] == i && s.requests[i].stage in {Waiting, Disconnected, Forgotten}
  }

  /** A request that has just arrived: a sweep may still take the id out of the map, the request that had it
      not having left. */
  lemma ArrivedLosesAClient(s: State, n: nat, i: nat)
    requires Harmful(s, n, i) && s.requests[n].stage == Arrived && ListedIs(s, s.requests[n].id, i)
    ensures CanLoseWith(s, n)
    decreases if s.requests[n].id in s.clients then 1 else 0, if InSweep(s.sweep, i) then 0 else 1,
      if s.sweep.Resting? then 0 else 1 + SweepLeft(s.sweep), if s.requests[n].id in s.storage then 1 else 0
  {
    var id := s.requests[n].id;
    if id !in s.clients {
      AskedLosesAClient(Next(s, Proceed(n)), n, i);
      LosesWithAfter(s, Proceed(n), n);
    } else if s.sweep.Resting? {
      assert s.clients[id] in s.clients.Values;
      ArrivedLosesAClient(Next(s, StartSweep([i])), n, i);
      LosesWithAfter(s, StartSweep([i]), n);
    } else if InSweep(s.sweep, i) && id in s.storage {
      ArrivedLosesAClient(Next(s, Expire(id)), n, i);
      LosesWithAfter(s, Expire(id), n);
    } else {
      SweepStaysElsewhere(s, n);
      SweepKeepsStage(s, i);
      SweepGoesForIt(s, n, i);
      ArrivedLosesAClient(Next(s, SweepOn), n, i);
      LosesWithAfter(s, SweepOn, n);
    }
  }

  lemma SweepGoesForIt(s: State, n: nat, i: nat)
    requires Harmful(s, n, i) && ListedIs(s, s.requests[n].id, i) && Enabled(s, SweepOn)
    requires s.requests[n].id in s.clients && (InSweep(s.sweep, i) ==> s.requests[n].id !in s.storage)
    ensures i < |Next(s, SweepOn).requests|
    ensures s.requests[n].id in Next(s, SweepOn).clients ==>
      Next(s, SweepOn).clients[s.requests[n].id] == i && (InSweep(s.sweep, i) ==> InSweep(Next(s, SweepOn).sweep, i))
  {
    if s.sweep.Visiting? && s.sweep.rest != [] { assert s.sweep.rest == [s.sweep.rest[0]] + s.sweep.rest[1..]; }
  }

  predicate Unused(s: State, id: Id) {
    forall i :: 0 <= i < |s.requests| && s.requests[i].id == id ==> !InUse(s, i)
  }

  lemma FreeStays(s: State, e: Event, n: nat, l: Lapses)
    requires Tidy(s, l) && Enabled(s, e) && n < |s.requests| && Free(s, n) && (Admits(s, e) ==> e.request == n)
    ensures n < |Next(s, e).requests| && Free(Next(s, e), n)
  {
    var t := Next(s, e);
    SameRequests(s, e);
    forall j | 0 <= j < |t.requests| && j != n && t.requests[j].id == t.requests[n].id ensures !InUse(t, j) {
      if j < |s.requests| { UnusedStays(s, e, l, j); }
    }
  }

  lemma {:induction false} OnlyIsFree(s: State, events: seq<Event>, n: nat, l: Lapses)
    requires Tidy(s, l) && IsRun(s, events) && AdmitsOnly(s, events, n) && n < |s.requests| && Free(s, n)
    ensures FreeAdmissions(s, events)
    decreases |events|
  {
    if events != [] {
      FreeStays(s, events[0], n, l);
      StepKeepsTidy(s, events[0], l);
      OnlyIsFree(Next(s, events[0]), events[1..], n, Lapse(l, s, events[0]));
    }
  }

  /** An arrival can lose a connected client exactly when an earlier request uses its id. If none does, no
      continuation loses one until somebody else is let in, whether the arrival is refused or not. */
  lemma ArrivalIsSafeExactly(s: State, id: Id, l: Lapses)
    requires Tidy(s, l)
    ensures var t, n := Next(s, Arrive(id)), |s.requests|;
      Unused(s, id) ==> forall events :: IsRun(t, events) && AdmitsOnly(t, events, n) ==> !Lost(Run(t, events))
    ensures Unused(s, id) <==> !CanLoseWith(Next(s, Arrive(id)), |s.requests|)
  {
    var t, n := Next(s, Arrive(id)), |s.requests|;
    ArriveKeepsTidy(s, id, l);
    if Unused(s, id) {
      assert Free(t, n);
      forall events | IsRun(t, events) && AdmitsOnly(t, events, n) ensures !Lost(Run(t, events)) {
        OnlyIsFree(t, events, n, l);
        RunKeepsTidy(t, events, l);
        TidyIsNotLost(Run(t, events), LapsesAfter(l, t, events));
      }
    } else {
      var i := UserOf(s, id, l);
      assert RequestTidy(s, i, l);
      UnlistedIsNotSwept(t, l, n);
      ArrivedLosesAClient(t, n, i);
    }
  }

  /** Who uses an id: if a client is listed under it, that one. */
  lemma UserOf(s: State, id: Id, l: Lapses) returns (i: nat)
    requires Tidy(s, l) && !Unused(s, id)
    ensures i < |s.requests| && s.requests[i].id == id && InUse(s, i) && ListedIs(s, id, i)
  {
    if id in s.clients {
      i := s.clients[id];
      EntryRequest(s, id, l);
    } else {
      i :| 0 <= i < |s.requests| && s.requests[i].id == id && InUse(s, i);
    }
  }
}
