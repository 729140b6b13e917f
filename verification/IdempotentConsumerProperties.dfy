/** At most once, and its price: what a consumed key, a failed call and a full buffer lead to. */
module IdempotentConsumerProperties {
  import opened Options
  import opened CircularBuffer
  import opened CircularBufferProperties
  import opened IdempotentConsumer

  datatype Request<+R> = Request(key: Key, now: int, faults: Faults, run: Option<R>)

  function Serve<R>(r: Repository, capacity: nat, request: Request<R>): Called<R> {
    Process(r, capacity, request.key, request.now, request.faults, request.run)
  }

  /** The calls of a sequential run, each on the repository the one before left. */
  function Calls<R>(r: Repository, capacity: nat, requests: seq<Request<R>>): (calls: seq<Called<R>>)
    ensures |calls| == |requests|
    decreases |requests|
  {
    if requests == [] then []
    else
      var first := Serve(r, capacity, requests[0]);
      [first] + Calls(first.repository, capacity, requests[1..])
  }

  // ----- at most once -----

  lemma OtherKeyStaysInTable<R>(r: Repository, capacity: nat, request: Request<R>, key: Key)
    requires key in r.table && request.key != key
    ensures key in Serve(r, capacity, request).repository.table
  {
    var reserved := Write(r, capacity, Entry(request.key, Reserved, request.now), request.faults.reserve);
    assert key in reserved.table;
    var marked := Write(reserved, capacity, Entry(request.key, Processing, request.now), request.faults.mark);
    assert key in marked.table && key in Erase(marked, request.key, request.faults.rollback).table;
    var committed := Write(marked, capacity, Entry(request.key, Committed, request.now), request.faults.commit);
    assert key in committed.table && key in Erase(committed, request.key, request.faults.rollback).table;
  }

  lemma KnownKeyIsIgnored<R>(r: Repository, capacity: nat, request: Request<R>)
    requires request.key in r.table
    ensures var c := Serve(r, capacity, request);
      !c.ran && c.repository == r && (c.outcome == Ignored || (c.outcome == Threw && request.faults.lookup))
  {
  }

  lemma ConsumedIsInTable<R>(r: Repository, capacity: nat, request: Request<R>)
    requires Serve(r, capacity, request).outcome.Consumed?
    ensures request.key in Serve(r, capacity, request).repository.table
  {
  }

  /** The key is turned away: nothing runs, and unless the lookup query throws the answer is Ignored. */
  predicate TurnedAway<R>(c: Called<R>, request: Request<R>) {
    !c.ran && !c.outcome.Consumed? && (c.outcome == Threw ==> request.faults.lookup)
  }

  lemma CallsAfterFirst<R>(r: Repository, capacity: nat, requests: seq<Request<R>>, j: nat)
    requires 0 < j < |requests|
    ensures Calls(r, capacity, requests)[j]
      == Calls(Calls(r, capacity, requests)[0].repository, capacity, requests[1..])[j - 1]
  {
  }

  lemma FirstCall<R>(r: Repository, capacity: nat, requests: seq<Request<R>>)
    requires requests != []
    ensures var c := Calls(r, capacity, requests)[0];
      && (c.outcome.Consumed? ==> requests[0].key in c.repository.table)
      && (requests[0].key in r.table ==> TurnedAway(c, requests[0]))
      && (forall k :: k in r.table ==> k in c.repository.table)
  {
    var request := requests[0];
    assert Calls(r, capacity, requests)[0] == Serve(r, capacity, request);
    if Serve(r, capacity, request).outcome.Consumed? { ConsumedIsInTable(r, capacity, request); }
    if request.key in r.table { KnownKeyIsIgnored(r, capacity, request); }
    forall k | k in r.table ensures k in Serve(r, capacity, request).repository.table {
      if k != request.key { OtherKeyStaysInTable(r, capacity, request, k); }
    }
  }

  lemma {:induction false} KnownKeyNeverRuns<R>(r: Repository, capacity: nat, requests: seq<Request<R>>, key: Key, j: nat)
    requires key in r.table && j < |requests| && requests[j].key == key
    ensures TurnedAway(Calls(r, capacity, requests)[j], requests[j])
    decreases j
  {
    FirstCall(r, capacity, requests);
    if j > 0 {
      CallsAfterFirst(r, capacity, requests, j);
      KnownKeyNeverRuns(Calls(r, capacity, requests)[0].repository, capacity, requests[1..], key, j - 1);
    }
  }

  /** Once a call has consumed its key, every later call with it is turned away. */
  ghost predicate AtMostOnce<R>(calls: seq<Called<R>>, requests: seq<Request<R>>)
    requires |calls| == |requests|
  {
    forall i, j :: 0 <= i < j < |calls| && requests[i].key == requests[j].key && calls[i].outcome.Consumed?
      ==> TurnedAway(calls[j], requests[j])
  }

  lemma FirstConsumesForGood<R>(r: Repository, capacity: nat, requests: seq<Request<R>>, j: nat)
    requires 0 < j < |requests| && requests[0].key == requests[j].key && Serve(r, capacity, requests[0]).outcome.Consumed?
    ensures TurnedAway(Calls(Serve(r, capacity, requests[0]).repository, capacity, requests[1..])[j - 1], requests[j])
  {
    ConsumedIsInTable(r, capacity, requests[0]);
    KnownKeyNeverRuns(Serve(r, capacity, requests[0]).repository, capacity, requests[1..], requests[0].key, j - 1);
  }

  lemma OneMoreAtMostOnce<R>(first: Called<R>, rest: seq<Called<R>>, requests: seq<Request<R>>)
    requires |requests| == |rest| + 1 && AtMostOnce(rest, requests[1..])
    requires forall j :: 0 < j < |requests| && requests[0].key == requests[j].key && first.outcome.Consumed? ==>
      TurnedAway(rest[j - 1], requests[j])
    ensures AtMostOnce([first] + rest, requests)
  {
    var calls := [first] + rest;
    forall i, j | 0 <= i < j < |calls| && requests[i].key == requests[j].key && calls[i].outcome.Consumed?
      ensures TurnedAway(calls[j], requests[j])
    {
      assert calls[j] == rest[j - 1] && requests[j] == requests[1..][j - 1];
      if i > 0 { assert calls[i] == rest[i - 1] && requests[i] == requests[1..][i - 1]; }
    }
  }

  /** Whatever fails and whenever: once a key was consumed, no later call with it runs the message or
      reports it consumed; it is ignored, unless the lookup query itself throws. */
  lemma {:induction false} ConsumedAtMostOnce<R>(r: Repository, capacity: nat, requests: seq<Request<R>>)
    ensures AtMostOnce(Calls(r, capacity, requests), requests)
    decreases |requests|
  {
    if requests != [] {
      var first := Serve(r, capacity, requests[0]);
      ConsumedAtMostOnce(first.repository, capacity, requests[1..]);
      forall j | 0 < j < |requests| && requests[0].key == requests[j].key && first.outcome.Consumed?
        ensures TurnedAway(Calls(first.repository, capacity, requests[1..])[j - 1], requests[j])
      {
        FirstConsumesForGood(r, capacity, requests, j);
      }
      OneMoreAtMostOnce(first, Calls(first.repository, capacity, requests[1..]), requests);
    }
  }

  // ----- the memory in front of the table -----

  predicate GoodMemory(m: Memory, capacity: nat) {
    forall i :: i in m ==> WellFormed(m[i]) && |m[i].slots| == capacity
  }

  lemma EmptyRingIsGood(capacity: nat)
    ensures WellFormed(EmptyRing(capacity)) && FindIndexIsAbsent(EmptyRing(capacity).slots)
  {
  }

  ghost predicate FindIndexIsAbsent(slots: Slots) {
    forall k :: FindIndex(slots, k) == -1
  }

  /** Remembering a key keeps no other key that was not remembered before, and forgets at most one. */
  lemma RememberStep(m: Memory, capacity: nat, item: Entry, k: Key)
    requires GoodMemory(m, capacity) && capacity > 0
    ensures var n := Remember(m, capacity, item);
      && GoodMemory(n, capacity) && Remembers(n, item.key)
      && (Remembers(n, k) ==> k == item.key || Remembers(m, k))
      && (k.instanceId != item.key.instanceId ==> (Remembers(n, k) <==> Remembers(m, k)))
  {
    EmptyRingIsGood(capacity);
    var r := RingOf(m, capacity, item.key.instanceId);
    RingStep(r, item, k);
  }

  lemma RingStep(r: Ring, item: Entry, k: Key)
    requires WellFormed(r) && r.slots != []
    ensures var a := RingAddOrUpdate(r, item);
      && WellFormed(a) && |a.slots| == |r.slots| && FindIndex(a.slots, item.key) >= 0
      && (k != item.key && FindIndex(a.slots, k) >= 0 ==> FindIndex(r.slots, k) >= 0)
  {
    var a := RingAddOrUpdate(r, item);
    AddRefinesPush(r, item);
    var i := FindIndex(r.slots, item.key);
    FoundAt(a.slots, item.key, if i >= 0 then i else NextSlot(r));
  }

  lemma ForgetStep(m: Memory, capacity: nat, key: Key, k: Key)
    requires GoodMemory(m, capacity)
    ensures var n := Forget(m, key);
      && GoodMemory(n, capacity) && !Remembers(n, key)
      && (Remembers(n, k) ==> Remembers(m, k))
  {
    if key.instanceId in m { RingForgets(m[key.instanceId], key, k); }
  }

  lemma RingForgets(r: Ring, key: Key, k: Key)
    requires WellFormed(r)
    ensures var left := RingRemove(r, key);
      && WellFormed(left) && |left.slots| == |r.slots| && FindIndex(left.slots, key) < 0
      && (FindIndex(left.slots, k) >= 0 ==> FindIndex(r.slots, k) >= 0)
  {
    RemoveRefinesDrop(r, key);
  }

  lemma WriteStep(r: Repository, capacity: nat, item: Entry, fault: Fault, k: Key)
    requires GoodMemory(r.memory, capacity) && capacity > 0
    ensures var w := Write(r, capacity, item, fault);
      && GoodMemory(w.memory, capacity) && Remembers(w.memory, item.key)
      && (Remembers(w.memory, k) ==> k == item.key || Remembers(r.memory, k))
      && (item.key in w.table <==> fault != ThrowsBefore || item.key in r.table)
      && (k != item.key ==> (k in w.table <==> k in r.table))
  {
    RememberStep(r.memory, capacity, item, k);
  }

  // ----- failed calls -----

  /** What a repository has kept of `r` after writes to `key`, seen from another key `k`. */
  ghost predicate Kept(r: Repository, w: Repository, capacity: nat, key: Key, k: Key) {
    && GoodMemory(w.memory, capacity)
    && (Remembers(w.memory, k) ==> k == key || Remembers(r.memory, k))
    && (k != key ==> (k in w.table <==> k in r.table))
  }

  lemma WriteKeeps(r: Repository, w: Repository, capacity: nat, item: Entry, fault: Fault, k: Key)
    requires Kept(r, w, capacity, item.key, k) && capacity > 0
    ensures Kept(r, Write(w, capacity, item, fault), capacity, item.key, k)
    ensures Remembers(Write(w, capacity, item, fault).memory, item.key)
  {
    WriteStep(w, capacity, item, fault, k);
  }

  lemma EraseKeeps(r: Repository, w: Repository, capacity: nat, key: Key, fault: Fault, k: Key)
    requires Kept(r, w, capacity, key, k)
    ensures Kept(r, Erase(w, key, fault), capacity, key, k) && !Remembers(Forget(w.memory, key), key)
  {
    ForgetStep(w.memory, capacity, key, k);
  }

  /** The repositories a call passes through: reserved, marked, committed, and rolled back from the
      last two. */
  lemma Stages(r: Repository, capacity: nat, key: Key, now: int, faults: Faults, k: Key)
    requires GoodMemory(r.memory, capacity) && capacity > 0
    ensures var reserved := Write(r, capacity, Entry(key, Reserved, now), faults.reserve);
      var marked := Write(reserved, capacity, Entry(key, Processing, now), faults.mark);
      var committed := Write(marked, capacity, Entry(key, Committed, now), faults.commit);
      && Kept(r, reserved, capacity, key, k) && Remembers(reserved.memory, key)
      && Kept(r, committed, capacity, key, k)
      && Kept(r, Erase(marked, key, faults.rollback), capacity, key, k)
      && !Remembers(Forget(marked.memory, key), key)
      && Kept(r, Erase(committed, key, faults.rollback), capacity, key, k)
      && !Remembers(Forget(committed.memory, key), key)
  {
    var reserved := Write(r, capacity, Entry(key, Reserved, now), faults.reserve);
    var marked := Write(reserved, capacity, Entry(key, Processing, now), faults.mark);
    WriteKeeps(r, r, capacity, Entry(key, Reserved, now), faults.reserve, k);
    WriteKeeps(r, reserved, capacity, Entry(key, Processing, now), faults.mark, k);
    WriteKeeps(r, marked, capacity, Entry(key, Committed, now), faults.commit, k);
    EraseKeeps(r, marked, capacity, key, faults.rollback, k);
    EraseKeeps(r, Write(marked, capacity, Entry(key, Committed, now), faults.commit), capacity, key, faults.rollback, k);
  }

  lemma ServeKeeps<R>(r: Repository, capacity: nat, request: Request<R>, k: Key)
    requires GoodMemory(r.memory, capacity) && capacity > 0
    ensures Kept(r, Serve(r, capacity, request).repository, capacity, request.key, k)
  {
    Stages(r, capacity, request.key, request.now, request.faults, k);
  }

  /** A failed call on a free key leaves it free exactly when the failure was the lookup query, or came
      after the reservation and the rollback took effect. A reservation that throws is never rolled
      back: it is made outside the protected block. */
  lemma FailureLeavesKeyFreeExactly<R>(r: Repository, capacity: nat, request: Request<R>)
    requires GoodMemory(r.memory, capacity) && capacity > 0 && !Known(r, request.key)
    ensures var c, f := Serve(r, capacity, request), request.faults;
      c.outcome == Threw ==>
        (!Known(c.repository, request.key) <==> f.lookup || (f.reserve == Fine && f.rollback != ThrowsBefore))
  {
    Stages(r, capacity, request.key, request.now, request.faults, request.key);
  }

  /** A free key can be consumed: without faults the call runs the message and reports its result. */
  lemma FreeKeyIsConsumed<R>(r: Repository, capacity: nat, key: Key, now: int, run: Option<R>)
    requires !Known(r, key)
    ensures var c := Serve(r, capacity, Request(key, now, NO_FAULTS, run));
      c.ran && c.outcome == if run.Some? then Consumed(run.value) else Threw
  {
  }

  /** The row a call that was let in leaves in the table: committed when it is consumed; none when it fails and the
      rollback takes effect; otherwise the last state that reached the table. */
  lemma RowLeftBehind<R>(r: Repository, capacity: nat, request: Request<R>)
    requires !Known(r, request.key) && !request.faults.lookup
    ensures var c, f, key := Serve(r, capacity, request), request.faults, request.key;
      c.repository.table ==
        if f.reserve == ThrowsBefore then r.table
        else if f.reserve == ThrowsAfter then r.table[key := Reserved]
        else if c.outcome.Consumed? then r.table[key := Committed]
        else if f.rollback != ThrowsBefore then r.table
        else if f.mark == ThrowsBefore then r.table[key := Reserved]
        else if f.mark == ThrowsAfter || request.run.None? || f.commit == ThrowsBefore then r.table[key := Processing]
        else r.table[key := Committed]
  {
  }

  /** Which calls run the message, which report it consumed, and with what result. */
  lemma ConsumedExactly<R>(r: Repository, capacity: nat, request: Request<R>)
    ensures var c, f, free := Serve(r, capacity, request), request.faults, !Known(r, request.key) && !request.faults.lookup;
      && (c.ran <==> free && f.reserve == Fine && f.mark == Fine)
      && (c.outcome.Consumed? <==> c.ran && request.run.Some? && f.commit == Fine)
      && (c.outcome.Consumed? ==> c.outcome.result == request.run.value)
      && (c.outcome.Ignored? <==> Remembers(r.memory, request.key) || (request.key in r.table && !f.lookup))
      && (!free ==> c.repository == r)
  {
  }

  /** What the memory then holds of a consumed key. */
  lemma ConsumedIsCommittedInMemory<R>(r: Repository, capacity: nat, request: Request<R>)
    requires GoodMemory(r.memory, capacity) && capacity > 0 && Serve(r, capacity, request).outcome.Consumed?
    ensures var m, key := Serve(r, capacity, request).repository.memory, request.key;
      && key.instanceId in m && FindIndex(m[key.instanceId].slots, key) >= 0
      && m[key.instanceId].slots[FindIndex(m[key.instanceId].slots, key)] == Some(Entry(key, Committed, request.now))
  {
    var key, now, f := request.key, request.now, request.faults;
    var reserved := Write(r, capacity, Entry(key, Reserved, now), f.reserve);
    var marked := Write(reserved, capacity, Entry(key, Processing, now), f.mark);
    WriteStep(r, capacity, Entry(key, Reserved, now), f.reserve, key);
    WriteStep(reserved, capacity, Entry(key, Processing, now), f.mark, key);
    RememberedAs(marked.memory, capacity, Entry(key, Committed, now));
  }

  /** A remembered entry is found as it was given. */
  lemma RememberedAs(m: Memory, capacity: nat, item: Entry)
    requires GoodMemory(m, capacity) && capacity > 0
    ensures var slots := Remember(m, capacity, item)[item.key.instanceId].slots;
      FindIndex(slots, item.key) >= 0 && slots[FindIndex(slots, item.key)] == Some(item)
  {
    EmptyRingIsGood(capacity);
    var r := RingOf(m, capacity, item.key.instanceId);
    RingStep(r, item, item.key);
    FoundAsGiven(r, item);
  }

  lemma FoundAsGiven(r: Ring, item: Entry)
    requires WellFormed(r) && r.slots != []
    ensures var slots := RingAddOrUpdate(r, item).slots;
      FindIndex(slots, item.key) >= 0 && slots[FindIndex(slots, item.key)] == Some(item)
  {
    AddRefinesPush(r, item);
    var i := FindIndex(r.slots, item.key);
    FoundAt(RingAddOrUpdate(r, item).slots, item.key, if i >= 0 then i else NextSlot(r));
  }

  /** The price: a call that fails leaving its row in the table loses the message. Nothing was reported
      consumed, and no later call will ever run it. */
  lemma {:induction false} StuckKeyIsLost<R>(r: Repository, capacity: nat, request: Request<R>, later: seq<Request<R>>, j: nat)
    requires !Known(r, request.key) && !request.faults.lookup
    requires request.faults.reserve == ThrowsAfter || (request.faults.reserve == Fine && request.faults.rollback == ThrowsBefore)
    requires j < |later| && later[j].key == request.key
    ensures var c := Serve(r, capacity, request);
      c.outcome == Threw ==>
        !Calls(c.repository, capacity, later)[j].ran && !Calls(c.repository, capacity, later)[j].outcome.Consumed?
  {
    var c := Serve(r, capacity, request);
    if c.outcome == Threw {
      assert request.key in c.repository.table;
      KnownKeyNeverRuns(c.repository, capacity, later, request.key, j);
    }
  }

  /** The memory knows no key the table does not. */
  ghost predicate Coherent(r: Repository) {
    forall k :: Remembers(r.memory, k) ==> k in r.table
  }

  /** One call keeps the memory coherent with the table exactly when its reservation, if it makes one,
      does not throw before reaching the table. */
  lemma CoherenceBreaksExactly<R>(r: Repository, capacity: nat, request: Request<R>)
    requires GoodMemory(r.memory, capacity) && capacity > 0 && Coherent(r)
    ensures Coherent(Serve(r, capacity, request).repository)
      <==> Known(r, request.key) || request.faults.lookup || request.faults.reserve != ThrowsBefore
  {
    var key, f := request.key, request.faults;
    Stages(r, capacity, key, request.now, f, key);
    if Known(r, key) || f.lookup || f.reserve != ThrowsBefore {
      var after := Serve(r, capacity, request).repository;
      forall k | Remembers(after.memory, k) ensures k in after.table {
        ServeKeeps(r, capacity, request, k);
      }
    }
  }
}
