/** The consumer on the in-memory repository alone: a key is kept only as long as its ring keeps it, so
    "at most once" ends with the N-th new key reserved in a ring of N slots, and for the empty key as soon as a
    rollback finds nothing else in its ring. */
module IdempotencyWindow {
  import opened Options
  import opened CircularBuffer
  import opened CircularBufferProperties
  import opened IdempotentConsumer
  import opened IdempotentConsumerProperties

  /** A call: the key, the clock, and whether the message's function succeeds. */
  datatype Delivery = Delivery(key: Key, now: int, succeeds: bool)

  /** The memory a call leaves; nothing in it can throw but the message's function. */
  function Deliver(m: Memory, capacity: nat, d: Delivery): Memory {
    if Remembers(m, d.key) then m
    else
      var reserved := Remember(m, capacity, Entry(d.key, Reserved, d.now));
      var marked := Remember(reserved, capacity, Entry(d.key, Processing, d.now));
      if d.succeeds then Remember(marked, capacity, Entry(d.key, Committed, d.now)) else Forget(marked, d.key)
  }

  /** The call ran the message and reported it consumed. */
  predicate Consumes(m: Memory, d: Delivery) {
    !Remembers(m, d.key) && d.succeeds
  }

  function DeliverAll(m: Memory, capacity: nat, ds: seq<Delivery>): Memory
    decreases |ds|
  {
    if ds == [] then m else DeliverAll(Deliver(m, capacity, ds[0]), capacity, ds[1..])
  }

  /** How many calls reserve a new key of the instance, whether or not they then succeed. */
  function Reservations(m: Memory, capacity: nat, ds: seq<Delivery>, instanceId: string): nat
    decreases |ds|
  {
    if ds == [] then 0
    else
      (if ReservesIn(m, ds[0], instanceId) then 1 else 0)
      + Reservations(Deliver(m, capacity, ds[0]), capacity, ds[1..], instanceId)
  }

  predicate ReservesIn(m: Memory, d: Delivery, instanceId: string) {
    d.key.instanceId == instanceId && !Remembers(m, d.key)
  }

  /** The entry `key` sits at position `p` of its instance's queue. */
  ghost predicate At(m: Memory, capacity: nat, key: Key, p: nat) {
    && GoodMemory(m, capacity) && key.instanceId in m && p < capacity
    && Holds(Queue(m[key.instanceId])[p], key)
  }

  lemma AtIsRemembered(m: Memory, capacity: nat, key: Key, p: nat)
    requires At(m, capacity, key, p)
    ensures Remembers(m, key)
  {
    QueueIsDistinct(m[key.instanceId]);
    FoundAt(Queue(m[key.instanceId]), key, p);
    QueueFind(m[key.instanceId], key);
  }

  // ----- what a rollback throws away -----

  /** Every entry of the ring, but the one the next insertion overwrites, has the empty key. */
  predicate OnlyEmptyBeside(r: Ring) {
    forall i :: 0 <= i < |r.slots| && i != NextSlot(r) && r.slots[i].Some? ==> r.slots[i].value.key == EMPTY_KEY
  }

  /** The rollback of the call drops `key` with its whole ring: it can only be the empty key. */
  predicate Drops(m: Memory, d: Delivery, key: Key) {
    && key == EMPTY_KEY && d.key.instanceId == key.instanceId && key.instanceId in m
    && !Remembers(m, d.key) && !d.succeeds && OnlyEmptyBeside(m[key.instanceId])
  }

  /** Inserting, updating and removing a new key empties the slot it was given. */
  lemma InsertThenRemove(r: Ring, a: Entry, b: Entry)
    requires WellFormed(r) && r.slots != [] && FindIndex(r.slots, a.key) == -1 && b.key == a.key
    ensures var marked := RingAddOrUpdate(RingAddOrUpdate(r, a), b);
      && RingRemove(marked, a.key).slots == r.slots[NextSlot(r) := None]
      && (ReportsEmpty(RingRemove(marked, a.key)) <==> OnlyEmptyBeside(r))
  {
    var reserved := RingAddOrUpdate(r, a);
    RingKeepsDistinct(r, a);
    FoundAt(reserved.slots, a.key, NextSlot(r));
    RingKeepsDistinct(reserved, b);
    var marked := RingAddOrUpdate(reserved, b);
    FoundAt(marked.slots, a.key, NextSlot(r));
    ReportsEmptyAfter(r, RingRemove(marked, a.key));
  }

  lemma ReportsEmptyAfter(r: Ring, left: Ring)
    requires InBounds(r) && r.slots != [] && left.slots == r.slots[NextSlot(r) := None]
    ensures ReportsEmpty(left) <==> OnlyEmptyBeside(r)
  {
    if ReportsEmpty(left) {
      forall i | 0 <= i < |r.slots| && i != NextSlot(r) && r.slots[i].Some? ensures r.slots[i].value.key == EMPTY_KEY {
        assert left.slots[i] == r.slots[i];
      }
    }
  }

  /** Removing another key leaves the entry in its place. */
  lemma RemoveOther(r: Ring, key: Key, p: nat, other: Key)
    requires WellFormed(r) && p < |r.slots| && Holds(Queue(r)[p], key) && other != key
    ensures var left := RingRemove(r, other);
      && WellFormed(left) && |left.slots| == |r.slots| && Holds(Queue(left)[p], key)
      && (key != EMPTY_KEY ==> !ReportsEmpty(left))
  {
    RemoveRefinesDrop(r, other);
    QueueIsDistinct(r);
    QueueAt(RingRemove(r, other), p);
  }

  /** A ring that does not report empty is not thrown away. */
  lemma ForgetOther(m: Memory, capacity: nat, key: Key, p: nat, other: Key)
    requires At(m, capacity, key, p) && other != key
    requires other.instanceId == key.instanceId && key == EMPTY_KEY ==> !ReportsEmpty(RingRemove(m[key.instanceId], other))
    ensures At(Forget(m, other), capacity, key, p)
  {
    if other.instanceId == key.instanceId { RemoveOther(m[key.instanceId], key, p, other); }
  }

  lemma RememberOther(m: Memory, capacity: nat, key: Key, p: nat, item: Entry)
    requires At(m, capacity, key, p) && item.key != key
    requires item.key.instanceId == key.instanceId && !Remembers(m, item.key) ==> p > 0
    ensures At(Remember(m, capacity, item), capacity, key,
               if item.key.instanceId == key.instanceId && !Remembers(m, item.key) then p - 1 else p)
  {
    RememberStep(m, capacity, item, key);
    if item.key.instanceId == key.instanceId { AddOther(m[key.instanceId], key, p, item); }
  }

  /** In its ring the entry moves forward when a new key comes in behind it. */
  lemma AddOther(r: Ring, key: Key, p: nat, item: Entry)
    requires WellFormed(r) && p < |r.slots| && Holds(Queue(r)[p], key) && item.key != key
    requires FindIndex(r.slots, item.key) < 0 ==> p > 0
    ensures var at := if FindIndex(r.slots, item.key) < 0 then p - 1 else p;
      Holds(Queue(RingAddOrUpdate(r, item))[at], key)
  {
    AddRefinesPush(r, item);
    QueueIsDistinct(r);
    QueueFind(r, item.key);
  }

  /** A call on another key moves the entry one position forward when it reserves a new key of the same
      instance, and leaves it where it is otherwise; a call on the key itself changes nothing. */
  lemma DeliverMoves(m: Memory, capacity: nat, key: Key, p: nat, d: Delivery)
    requires At(m, capacity, key, p) && !Drops(m, d, key)
    requires ReservesIn(m, d, key.instanceId) ==> p > 0
    ensures At(Deliver(m, capacity, d), capacity, key, if ReservesIn(m, d, key.instanceId) then p - 1 else p)
  {
    AtIsRemembered(m, capacity, key, p);
    if !Remembers(m, d.key) {
      var q := if ReservesIn(m, d, key.instanceId) then p - 1 else p;
      var a, b := Entry(d.key, Reserved, d.now), Entry(d.key, Processing, d.now);
      var reserved := Remember(m, capacity, a);
      RememberOther(m, capacity, key, p, a);
      RememberStep(m, capacity, a, key);
      var marked := Remember(reserved, capacity, b);
      RememberOther(reserved, capacity, key, q, b);
      RememberStep(reserved, capacity, b, key);
      if d.succeeds {
        RememberOther(marked, capacity, key, q, Entry(d.key, Committed, d.now));
      } else {
        if d.key.instanceId == key.instanceId { InsertThenRemove(m[key.instanceId], a, b); }
        ForgetOther(marked, capacity, key, q, d.key);
      }
    }
  }

  /** One call on a memory that holds the key, exactly: the key is forgotten when a new key is reserved over it,
      and when the rollback drops its ring. */
  lemma DeliverForgetsExactly(m: Memory, capacity: nat, key: Key, p: nat, d: Delivery)
    requires At(m, capacity, key, p)
    ensures Remembers(Deliver(m, capacity, d), key)
      <==> !Drops(m, d, key) && !(p == 0 && ReservesIn(m, d, key.instanceId))
  {
    if Drops(m, d, key) {
      InsertThenRemove(m[""], Entry(d.key, Reserved, d.now), Entry(d.key, Processing, d.now));
    } else if p == 0 && ReservesIn(m, d, key.instanceId) {
      OldestIsForgotten(m, capacity, key, d);
    } else {
      DeliverMoves(m, capacity, key, p, d);
      var q := if ReservesIn(m, d, key.instanceId) then p - 1 else p;
      AtIsRemembered(Deliver(m, capacity, d), capacity, key, q);
    }
  }

  /** No rollback of the run drops the key. */
  predicate NeverDropped(m: Memory, capacity: nat, ds: seq<Delivery>, key: Key)
    decreases |ds|
  {
    ds == [] || (!Drops(m, ds[0], key) && NeverDropped(Deliver(m, capacity, ds[0]), capacity, ds[1..], key))
  }

  /** No key but the empty one is ever dropped. */
  lemma {:induction false} OnlyTheEmptyKeyIsDropped(m: Memory, capacity: nat, ds: seq<Delivery>, key: Key)
    requires key != Key("", "")
    ensures NeverDropped(m, capacity, ds, key)
    decreases |ds|
  {
    if ds != [] { OnlyTheEmptyKeyIsDropped(Deliver(m, capacity, ds[0]), capacity, ds[1..], key); }
  }

  lemma {:induction false} DeliverAllMoves(m: Memory, capacity: nat, key: Key, p: nat, ds: seq<Delivery>, left: nat)
    requires At(m, capacity, key, p) && NeverDropped(m, capacity, ds, key)
    requires p == left + Reservations(m, capacity, ds, key.instanceId)
    ensures At(DeliverAll(m, capacity, ds), capacity, key, left)
    decreases |ds|
  {
    if ds != [] {
      DeliverMoves(m, capacity, key, p, ds[0]);
      var q := if ReservesIn(m, ds[0], key.instanceId) then p - 1 else p;
      DeliverAllMoves(Deliver(m, capacity, ds[0]), capacity, key, q, ds[1..], left);
    }
  }

  /** A consumed key goes to the back of its queue. */
  lemma ConsumedGoesLast(m: Memory, capacity: nat, d: Delivery)
    requires GoodMemory(m, capacity) && capacity > 0 && Consumes(m, d)
    ensures At(Deliver(m, capacity, d), capacity, d.key, capacity - 1)
  {
    var reserved := Remember(m, capacity, Entry(d.key, Reserved, d.now));
    RememberNew(m, capacity, Entry(d.key, Reserved, d.now));
    var marked := Remember(reserved, capacity, Entry(d.key, Processing, d.now));
    RememberAgain(reserved, capacity, Entry(d.key, Processing, d.now), capacity - 1);
    RememberAgain(marked, capacity, Entry(d.key, Committed, d.now), capacity - 1);
  }

  lemma RememberNew(m: Memory, capacity: nat, item: Entry)
    requires GoodMemory(m, capacity) && capacity > 0 && !Remembers(m, item.key)
    ensures At(Remember(m, capacity, item), capacity, item.key, capacity - 1)
  {
    RememberStep(m, capacity, item, item.key);
    EmptyRingIsGood(capacity);
    var r := RingOf(m, capacity, item.key.instanceId);
    AddRefinesPush(r, item);
    QueueIsDistinct(r);
    QueueFind(r, item.key);
  }

  lemma RememberAgain(m: Memory, capacity: nat, item: Entry, p: nat)
    requires At(m, capacity, item.key, p)
    ensures At(Remember(m, capacity, item), capacity, item.key, p)
  {
    RememberStep(m, capacity, item, item.key);
    var r := m[item.key.instanceId];
    AddRefinesPush(r, item);
    QueueIsDistinct(r);
    FoundAt(Queue(r), item.key, p);
  }

  /** From the back of the queue on: held while fewer than N new keys are reserved and nothing drops it. */
  lemma HeldInTheWindow(after: Memory, capacity: nat, key: Key, ds: seq<Delivery>, end: Memory, left: nat)
    requires capacity > 0 && At(after, capacity, key, capacity - 1) && NeverDropped(after, capacity, ds, key)
    requires capacity - 1 == left + Reservations(after, capacity, ds, key.instanceId)
    requires end == DeliverAll(after, capacity, ds)
    ensures Remembers(end, key)
  {
    DeliverAllMoves(after, capacity, key, capacity - 1, ds, left);
    AtIsRemembered(end, capacity, key, left);
  }

  /** While fewer than N new keys of the instance have been reserved since a key was consumed, and no rollback
      has dropped it, the key is turned away. */
  lemma AtMostOnceWithinTheWindow(m: Memory, capacity: nat, first: Delivery, ds: seq<Delivery>, again: Delivery)
    requires GoodMemory(m, capacity) && capacity > 0 && Consumes(m, first) && again.key == first.key
    requires Reservations(Deliver(m, capacity, first), capacity, ds, first.key.instanceId) < capacity
    requires NeverDropped(Deliver(m, capacity, first), capacity, ds, first.key)
    ensures !Consumes(DeliverAll(Deliver(m, capacity, first), capacity, ds), again)
  {
    ConsumedGoesLast(m, capacity, first);
    var after := Deliver(m, capacity, first);
    HeldInTheWindow(after, capacity, first.key, ds, DeliverAll(after, capacity, ds),
                    capacity - 1 - Reservations(after, capacity, ds, first.key.instanceId));
  }

  /** The call after which a consumed key can be consumed a second time is exactly the one that makes the N-th
      reservation of a new key, or the first whose rollback drops the key. */
  lemma ConsumedAgainExactly(m: Memory, capacity: nat, first: Delivery, ds: seq<Delivery>, end: Memory, last: Delivery,
                             again: Delivery)
    requires GoodMemory(m, capacity) && capacity > 0 && Consumes(m, first)
    requires end == DeliverAll(Deliver(m, capacity, first), capacity, ds)
    requires again.key == first.key && again.succeeds
    requires Reservations(Deliver(m, capacity, first), capacity, ds, first.key.instanceId) < capacity
    requires NeverDropped(Deliver(m, capacity, first), capacity, ds, first.key)
    ensures Consumes(Deliver(end, capacity, last), again) <==>
      || Drops(end, last, first.key)
      || (Reservations(Deliver(m, capacity, first), capacity, ds, first.key.instanceId) == capacity - 1
          && ReservesIn(end, last, first.key.instanceId))
  {
    ConsumedGoesLast(m, capacity, first);
    var left := capacity - 1 - Reservations(Deliver(m, capacity, first), capacity, ds, first.key.instanceId);
    ForgottenAfter(Deliver(m, capacity, first), capacity, first.key, ds, end, last, left);
  }

  lemma ForgottenAfter(after: Memory, capacity: nat, key: Key, ds: seq<Delivery>, end: Memory, last: Delivery, left: nat)
    requires capacity > 0 && At(after, capacity, key, capacity - 1) && NeverDropped(after, capacity, ds, key)
    requires capacity - 1 == left + Reservations(after, capacity, ds, key.instanceId)
    requires end == DeliverAll(after, capacity, ds)
    ensures !Remembers(Deliver(end, capacity, last), key)
      <==> Drops(end, last, key) || (left == 0 && ReservesIn(end, last, key.instanceId))
  {
    DeliverAllMoves(after, capacity, key, capacity - 1, ds, left);
    DeliverForgetsExactly(end, capacity, key, left, last);
  }

  lemma RingEvicts(r: Ring, key: Key, item: Entry)
    requires WellFormed(r) && r.slots != [] && Holds(Queue(r)[0], key) && FindIndex(r.slots, item.key) == -1
    ensures FindIndex(RingAddOrUpdate(r, item).slots, key) == -1
  {
    AddRefinesPush(r, item);
    QueueIsDistinct(r);
    QueueFind(r, item.key);
    FoundAt(Queue(r), key, 0);
    PushKeepsDistinct(Queue(r), item);
    FindAfter(Queue(r), item, key);
    QueueFind(RingAddOrUpdate(r, item), key);
  }

  lemma OldestIsForgotten(m: Memory, capacity: nat, key: Key, d: Delivery)
    requires At(m, capacity, key, 0) && ReservesIn(m, d, key.instanceId)
    ensures !Remembers(Deliver(m, capacity, d), key)
  {
    AtIsRemembered(m, capacity, key, 0);
    RingEvicts(m[key.instanceId], key, Entry(d.key, Reserved, d.now));
    NothingComesBack(m, capacity, d, key);
  }

  /** What the reservation evicts stays away for the rest of the call. */
  lemma NothingComesBack(m: Memory, capacity: nat, d: Delivery, k: Key)
    requires GoodMemory(m, capacity) && capacity > 0 && !Remembers(m, d.key) && k != d.key
    requires !Remembers(Remember(m, capacity, Entry(d.key, Reserved, d.now)), k)
    ensures !Remembers(Deliver(m, capacity, d), k)
  {
    var reserved := Remember(m, capacity, Entry(d.key, Reserved, d.now));
    var marked := Remember(reserved, capacity, Entry(d.key, Processing, d.now));
    RememberStep(m, capacity, Entry(d.key, Reserved, d.now), k);
    RememberStep(reserved, capacity, Entry(d.key, Processing, d.now), k);
    RememberStep(marked, capacity, Entry(d.key, Committed, d.now), k);
    ForgetStep(marked, capacity, d.key, k);
  }

  /** Only the empty key is live in a ring. */
  predicate OnlyEmptyKeys(r: Ring) {
    forall i :: 0 <= i < |r.slots| && r.slots[i].Some? ==> r.slots[i].value.key == EMPTY_KEY
  }

  lemma OnlyEmptyKeysStay(r: Ring, item: Entry)
    requires InBounds(r) && OnlyEmptyKeys(r) && item.key == EMPTY_KEY
    ensures OnlyEmptyKeys(RingAddOrUpdate(r, item)) && InBounds(RingAddOrUpdate(r, item))
  {
  }

  lemma EmptyKeyAlone(capacity: nat, now: int)
    requires capacity > 0
    ensures var after := Deliver(map[], capacity, Delivery(EMPTY_KEY, now, true));
      "" in after && OnlyEmptyKeys(after[""])
  {
    var a, b, c := Entry(EMPTY_KEY, Reserved, now), Entry(EMPTY_KEY, Processing, now), Entry(EMPTY_KEY, Committed, now);
    var r1 := RingAddOrUpdate(EmptyRing(capacity), a);
    OnlyEmptyKeysStay(EmptyRing(capacity), a);
    OnlyEmptyKeysStay(r1, b);
    OnlyEmptyKeysStay(RingAddOrUpdate(r1, b), c);
  }

  /** From an empty repository: the empty key is consumed, one message with another key of its instance fails, and
      the empty key is consumed again, however many slots the ring has. */
  lemma EmptyKeyIsConsumedTwice(capacity: nat, first: Delivery, d: Delivery, again: Delivery)
    requires capacity > 0 && first.key == Key("", "") == again.key && first.succeeds && again.succeeds
    requires d.key.instanceId == "" && d.key != Key("", "") && !d.succeeds
    ensures Consumes(map[], first)
    ensures Consumes(Deliver(Deliver(map[], capacity, first), capacity, d), again)
  {
    var after := Deliver(map[], capacity, first);
    EmptyKeyAlone(capacity, first.now);
    ConsumedAgainExactly(map[], capacity, first, [], after, d, again);
    assert !Remembers(after, d.key);
  }
}
