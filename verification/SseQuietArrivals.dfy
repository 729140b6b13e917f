/** Runs in which every id that arrives is quiet: nobody is refused, and whoever is let in has its id to itself. */
module SseQuietArrivals {
  import opened SseLifecycle
  import opened SseLifecycleProperties

  /** Not refused, and until it is stored the id is neither listed nor stored. */
  predicate Unchallenged(s: State, i: nat)
    requires i < |s.requests|
  {
    var r := s.requests[i];
    r.stage != Refused && (r.stage in {Arrived, NotInMap, Accepted} ==> r.id !in s.clients && r.id !in s.storage)
  }

  /** Of two requests with one id the earlier is gone, and every request is unchallenged. */
  predicate Orderly(s: State) {
    && (forall i, j :: 0 <= i < j < |s.requests| && s.requests[i].id == s.requests[j].id ==> Gone(s, i))
    && forall i :: 0 <= i < |s.requests| ==> Unchallenged(s, i)
  }

  /** Of two requests with one id one is gone. */
  lemma SameIdIsGone(s: State, i: nat, j: nat)
    requires Orderly(s) && i < |s.requests| && j < |s.requests| && i != j && s.requests[i].id == s.requests[j].id
    requires !Gone(s, i)
    ensures Gone(s, j)
  {
  }

  lemma GoneStays(s: State, e: Event, l: Lapses, i: nat)
    requires Tidy(s, l) && Enabled(s, e) && i < |s.requests| && Gone(s, i)
    ensures i < |Next(s, e).requests| && Gone(Next(s, e), i) && Next(s, e).requests[i].id == s.requests[i].id
  {
    UnusedStays(s, e, l, i);
    StaysUnchecked(s, e, l, i);
  }

  lemma StaysUnchecked(s: State, e: Event, l: Lapses, i: nat)
    requires Tidy(s, l) && Enabled(s, e) && i < |s.requests| && s.requests[i].stage == Finished && i !in s.checked
    ensures i < |Next(s, e).requests| && Next(s, e).requests[i].stage == Finished && i !in Next(s, e).checked
  {
    assert RequestTidy(s, i, l);
    if e == SweepOn { SweepKeepsStage(s, i); }
  }

  lemma QuietIsUnlisted(s: State, id: Id, l: Lapses)
    requires Tidy(s, l) && Quiet(s, id)
    ensures id !in s.clients
  {
    if id in s.clients { EntryRequest(s, id, l); }
  }

  lemma EarlierStayGone(s: State, e: Event, l: Lapses, i: nat, j: nat)
    requires Tidy(s, l) && Orderly(s) && Enabled(s, e) && (e.Arrive? ==> Quiet(s, e.id))
    requires i < j < |Next(s, e).requests| && Next(s, e).requests[i].id == Next(s, e).requests[j].id
    ensures Gone(Next(s, e), i)
  {
    SameRequests(s, e);
    assert i < |s.requests|;
    assert Gone(s, i);
    GoneStays(s, e, l, i);
  }

  /** What a step may list or store: the id of a request that is on its way in, or of one a send has checked. */
  lemma NewlyKnown(s: State, e: Event, id: Id)
    requires Enabled(s, e) && id !in s.clients && id !in s.storage
    ensures id in Next(s, e).clients || id in Next(s, e).storage ==>
      exists i :: 0 <= i < |s.requests| && s.requests[i].id == id
        && (i in s.checked || (e == Proceed(i) && s.requests[i].stage in {Accepted, Stored}))
  {
    match e
    case Proceed(i) => assert i < |s.requests|;
    case UpdateStorage(i) => assert i < |s.requests| && i in s.checked;
    case _ =>
  }

  lemma StaysUnchallenged(s: State, e: Event, l: Lapses, j: nat)
    requires Tidy(s, l) && Orderly(s) && Enabled(s, e) && j < |s.requests|
    ensures j < |Next(s, e).requests| && Unchallenged(Next(s, e), j)
  {
    var r, t := s.requests[j], Next(s, e);
    SameRequests(s, e);
    assert Unchallenged(s, j) && RequestTidy(s, j, l);
    StageMovesOn(s, e, j);
    if t.requests[j].stage in {Arrived, NotInMap, Accepted} && (r.id in t.clients || r.id in t.storage) {
      NewlyKnown(s, e, r.id);
      var i :| 0 <= i < |s.requests| && s.requests[i].id == r.id
        && (i in s.checked || (e == Proceed(i) && s.requests[i].stage in {Accepted, Stored}));
      if i != j { SameIdIsGone(s, i, j); }
    }
  }

  /** A request unknown to map and storage is let in, and one on its way in does not go back. */
  lemma StageMovesOn(s: State, e: Event, j: nat)
    requires Enabled(s, e) && j < |s.requests| && Unchallenged(s, j)
    ensures j < |Next(s, e).requests| && Next(s, e).requests[j].stage != Refused
    ensures Next(s, e).requests[j].stage in {Arrived, NotInMap, Accepted} ==> s.requests[j].stage in {Arrived, NotInMap, Accepted}
  {
    SameRequests(s, e);
  }

  lemma StepKeepsOrderly(s: State, e: Event, l: Lapses)
    requires Tidy(s, l) && Orderly(s) && Enabled(s, e) && (e.Arrive? ==> Quiet(s, e.id))
    ensures Orderly(Next(s, e))
  {
    var t := Next(s, e);
    forall i, j | 0 <= i < j < |t.requests| && t.requests[i].id == t.requests[j].id ensures Gone(t, i) {
      EarlierStayGone(s, e, l, i, j);
    }
    forall j | 0 <= j < |t.requests| ensures Unchallenged(t, j) {
      if j < |s.requests| {
        StaysUnchallenged(s, e, l, j);
      } else {
        QuietIsUnlisted(s, e.id, l);
      }
    }
  }

  /** A request that has not been let in yet is the last with its id. */
  lemma AdmissionIsFree(s: State, e: Event)
    requires Orderly(s) && Admits(s, e)
    ensures Free(s, e.request)
  {
    var i := e.request;
    forall j | 0 <= j < |s.requests| && j != i && s.requests[j].id == s.requests[i].id ensures !InUse(s, j) {
      SameIdIsGone(s, i, j);
    }
  }

  lemma {:induction false} QuietRun(s: State, events: seq<Event>, l: Lapses)
    requires Tidy(s, l) && Orderly(s) && IsRun(s, events) && QuietArrivals(s, events)
    ensures FreeAdmissions(s, events) && Orderly(Run(s, events))
    ensures Tidy(Run(s, events), LapsesAfter(l, s, events))
    decreases |events|
  {
    if events != [] {
      if Admits(s, events[0]) { AdmissionIsFree(s, events[0]); }
      StepKeepsTidy(s, events[0], l);
      StepKeepsOrderly(s, events[0], l);
      QuietRun(Next(s, events[0]), events[1..], Lapse(l, s, events[0]));
    }
  }

  /** If every id that arrives is quiet, everybody let in has its id to itself, and nobody is answered with a
      conflict, however requests, sends and sweeps interleave. */
  lemma NoRequestIsRefused(storage: set<Id>, events: seq<Event>)
    requires IsRun(Start(storage), events) && QuietArrivals(Start(storage), events)
    ensures FreeAdmissions(Start(storage), events)
    ensures forall r :: r in Run(Start(storage), events).requests ==> r.stage != Refused
  {
    QuietRun(Start(storage), events, NO_LAPSES);
    var s := Run(Start(storage), events);
    forall r | r in s.requests ensures r.stage != Refused {
      var i :| 0 <= i < |s.requests| && s.requests[i] == r;
      assert Unchallenged(s, i);
    }
  }
}
