/** When an id can come back without any risk, that of being refused included: exactly when it is quiet. */
module SseReuse {
  import opened SseLifecycle
  import opened SseLifecycleProperties
  import opened SseLostClients
  import opened SseQuietArrivals

  predicate Broken(s: State) { Lost(s) || exists i :: 0 <= i < |s.requests| && s.requests[i].stage == Refused }

  predicate NoArrivals(events: seq<Event>) { forall e :: e in events ==> !e.Arrive? }

  ghost predicate CanBreak(s: State) {
    exists events :: GoesOn(events) && IsRun(s, events) && Broken(Run(s, events))
  }

  lemma RefusedCanBreak(s: State, i: nat)
    requires i < |s.requests| && s.requests[i].stage == Refused
    ensures CanBreak(s)
  {
    assert GoesOn([]) && IsRun(s, []) && Broken(Run(s, []));
  }

  lemma LosingBreaks(s: State)
    requires CanLose(s)
    ensures CanBreak(s)
  {
    var events :| GoesOn(events) && IsRun(s, events) && AdmitsNobody(s, events) && Lost(Run(s, events));
    assert Broken(Run(s, events));
  }

  /** One more step before a continuation that breaks. */
  lemma BreaksAfter(s: State, e: Event)
    requires Enabled(s, e) && !e.Arrive? && !e.Expire? && CanBreak(Next(s, e))
    ensures CanBreak(s)
  {
    var rest :| GoesOn(rest) && IsRun(Next(s, e), rest) && Broken(Run(Next(s, e), rest));
    var events := [e] + rest;
    assert events[1..] == rest;
    assert GoesOn(events) && IsRun(s, events) && Broken(Run(s, events));
  }

  // ----- a newcomer whose id is known is refused -----

  predicate JustArrived(s: State, n: nat) {
    n < |s.requests| && s.requests[n].stage == Arrived && s.requests[n].connected
  }

  lemma KnownIsRefused(s: State, n: nat)
    requires JustArrived(s, n) && (s.requests[n].id in s.storage || s.requests[n].id in s.clients)
    ensures CanBreak(s)
  {
    var t := Next(s, Proceed(n));
    if t.requests[n].stage == Refused {
      RefusedCanBreak(t, n);
    } else {
      RefusedCanBreak(Next(t, Proceed(n)), n);
      BreaksAfter(t, Proceed(n));
    }
    BreaksAfter(s, Proceed(n));
  }

  // ----- a newcomer meets whoever uses its id -----

  /** The newcomer asks its two questions undisturbed: it is refused, or let in while the other uses the id. */
  lemma NewcomerMeetsTheUser(s: State, n: nat, i: nat)
    requires Harmful(s, n, i) && s.requests[n].stage in {Arrived, NotInMap}
    ensures CanBreak(s)
    decreases if s.requests[n].stage == Arrived then 1 else 0
  {
    var t := Next(s, Proceed(n));
    if t.requests[n].stage == Refused {
      RefusedCanBreak(t, n);
    } else if t.requests[n].stage == Accepted {
      UsedIdLosesAClient(t, n, i);
      LosingBreaks(t);
    } else {
      NewcomerMeetsTheUser(t, n, i);
    }
    BreaksAfter(s, Proceed(n));
  }

  /** An earlier request that has not been let in yet is let in first. */
  lemma TwinComesIn(s: State, n: nat, i: nat)
    requires Sharing(s, n, i) && JustArrived(s, n) && SweepElsewhere(s, n)
    requires s.requests[i].stage in {Arrived, NotInMap} && s.requests[i].connected
    ensures CanBreak(s)
    decreases if s.requests[i].stage == Arrived then 1 else 0
  {
    var t := Next(s, Proceed(i));
    if t.requests[i].stage == Refused {
      RefusedCanBreak(t, i);
    } else if t.requests[i].stage == Accepted {
      NewcomerMeetsTheUser(t, n, i);
    } else {
      TwinComesIn(t, n, i);
    }
    BreaksAfter(s, Proceed(i));
  }

  lemma LateUpdateIsSeen(s: State, n: nat, i: nat)
    requires Sharing(s, n, i) && JustArrived(s, n) && i in s.checked
    ensures CanBreak(s)
  {
    KnownIsRefused(Next(s, UpdateStorage(i)), n);
    BreaksAfter(s, UpdateStorage(i));
  }

  lemma NotGoneBreaks(s: State, id: Id, l: Lapses, i: nat)
    requires Tidy(s, l) && Orderly(s) && i < |s.requests| && s.requests[i].id == id && !Gone(s, i)
    ensures CanBreak(Next(s, Arrive(id)))
  {
    var t, n := Next(s, Arrive(id)), |s.requests|;
    assert RequestTidy(s, i, l) && Unchallenged(s, i) && Sharing(t, n, i) && JustArrived(t, n);
    ArriveKeepsTidy(s, id, l);
    UnlistedIsNotSwept(t, l, n);
    if InUse(s, i) {
      NewcomerMeetsTheUser(t, n, i);
    } else if i in s.checked {
      LateUpdateIsSeen(t, n, i);
    } else {
      TwinComesIn(t, n, i);
    }
  }

  /** Between arrivals that are quiet, an id may arrive safely exactly when it is quiet itself: then no
      continuation without a further arrival refuses a request or loses a client, even if ids expire; and
      otherwise some continuation does, even if nothing expires. */
  lemma ReuseIsSafeExactly(s: State, id: Id, l: Lapses)
    requires Tidy(s, l) && Orderly(s)
    ensures Quiet(s, id) ==> forall events ::
      NoArrivals(events) && IsRun(Next(s, Arrive(id)), events) ==> !Broken(Run(Next(s, Arrive(id)), events))
    ensures Quiet(s, id) <==> !CanBreak(Next(s, Arrive(id)))
  {
    if Quiet(s, id) {
      forall events | NoArrivals(events) && IsRun(Next(s, Arrive(id)), events)
        ensures !Broken(Run(Next(s, Arrive(id)), events))
      {
        ArriveKeepsTidy(s, id, l);
        StepKeepsOrderly(s, Arrive(id), l);
        NothingBreaks(Next(s, Arrive(id)), events, l);
      }
    } else if id in s.storage {
      KnownIsRefused(Next(s, Arrive(id)), |s.requests|);
    } else {
      var i :| 0 <= i < |s.requests| && s.requests[i].id == id && !Gone(s, i);
      NotGoneBreaks(s, id, l, i);
    }
  }

  lemma {:induction false} NoArrivalIsQuiet(s: State, events: seq<Event>)
    requires IsRun(s, events) && NoArrivals(events)
    ensures QuietArrivals(s, events)
    decreases |events|
  {
    if events != [] {
      assert events[0] in events && forall e :: e in events[1..] ==> e in events;
      NoArrivalIsQuiet(Next(s, events[0]), events[1..]);
    }
  }

  lemma NothingBreaks(s: State, events: seq<Event>, l: Lapses)
    requires Tidy(s, l) && Orderly(s) && IsRun(s, events) && NoArrivals(events)
    ensures !Broken(Run(s, events))
  {
    NoArrivalIsQuiet(s, events);
    QuietRun(s, events, l);
    var t, k := Run(s, events), LapsesAfter(l, s, events);
    TidyIsNotLost(t, k);
    forall i | 0 <= i < |t.requests| ensures t.requests[i].stage != Refused { assert Unchallenged(t, i); }
  }
}
