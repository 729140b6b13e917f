/** The ring seen from outside: a queue of slots, the next one to be overwritten first, and a bounded
    keyed store. How long an entry lives is read off the queue. */
module CircularBufferProperties {
  import opened Options
  import opened CircularBuffer

  // The operations on the queue: a known key keeps its place, a new one drops the front and goes last.
  function Push(q: Slots, item: Entry): Slots {
    var i := FindIndex(q, item.key);
    if q == [] then q else if i >= 0 then q[i := Some(item)] else q[1..] + [Some(item)]
  }

  function Drop(q: Slots, key: Key): Slots {
    var i := FindIndex(q, key);
    if i >= 0 then q[i := None] else q
  }

  /** Overwriting a slot in the ring overwrites its position in the queue. */
  lemma QueueUpdate(r: Ring, s: nat, slot: Option<Entry>)
    requires r.cursor <= |r.slots| && s < |r.slots|
    ensures Queue(r.(slots := r.slots[s := slot])) == Queue(r)[PositionOf(r, s) := slot]
  {
  }

  /** Every operation on the ring is the queue's, and keeps the keys distinct. */
  lemma RingRefinesQueue(r: Ring, item: Entry)
    requires WellFormed(r)
    ensures WellFormed(RingAddOrUpdate(r, item)) && WellFormed(RingRemove(r, item.key))
    ensures Queue(RingAddOrUpdate(r, item)) == Push(Queue(r), item)
    ensures Queue(RingRemove(r, item.key)) == Drop(Queue(r), item.key)
  {
    AddRefinesPush(r, item);
    RemoveRefinesDrop(r, item.key);
  }

  lemma AddRefinesPush(r: Ring, item: Entry)
    requires WellFormed(r)
    ensures WellFormed(RingAddOrUpdate(r, item)) && Queue(RingAddOrUpdate(r, item)) == Push(Queue(r), item)
  {
    QueueFind(r, item.key);
    var s := FindIndex(r.slots, item.key);
    if s >= 0 {
      SetKeepsDistinct(r.slots, s, item);
      QueueUpdate(r, s, Some(item));
    } else if r.slots != [] {
      SetKeepsDistinct(r.slots, NextSlot(r), item);
      QueueInsert(r, item);
    }
  }

  lemma RemoveRefinesDrop(r: Ring, key: Key)
    requires WellFormed(r)
    ensures WellFormed(RingRemove(r, key)) && Queue(RingRemove(r, key)) == Drop(Queue(r), key)
  {
    QueueFind(r, key);
    var s := FindIndex(r.slots, key);
    if s >= 0 { QueueUpdate(r, s, None); }
  }

  lemma SetKeepsDistinct(slots: Slots, i: nat, item: Entry)
    requires DistinctKeys(slots) && i < |slots|
    requires FindIndex(slots, item.key) == i || FindIndex(slots, item.key) == -1
    ensures DistinctKeys(slots[i := Some(item)])
  {
  }

  lemma QueueInsert(r: Ring, item: Entry)
    requires r.cursor <= |r.slots| && r.slots != []
    ensures Queue(Ring(r.slots[NextSlot(r) := Some(item)], NextSlot(r) + 1)) == Queue(r)[1..] + [Some(item)]
  {
  }

  // ----- the keyed store -----

  /** An insertion drops whatever the oldest slot holds, if anything. */
  ghost function Evicted(q: Slots): set<Key> {
    if q != [] && q[0].Some? then {q[0].value.key} else {}
  }

  lemma PushKeepsDistinct(q: Slots, item: Entry)
    requires DistinctKeys(q)
    ensures DistinctKeys(Push(q, item)) && DistinctKeys(Drop(q, item.key)) && |Push(q, item)| == |q|
  {
  }

  /** The store under an insertion or update: a known key takes its new value and evicts nothing, a
      new key evicts the entry of the oldest slot. */
  ghost function StorePush(q: Slots, item: Entry): map<Key, Entry> {
    (if item.key in Store(q) then Store(q) else Store(q) - Evicted(q))[item.key := item]
  }

  lemma QueueRefinesStore(q: Slots, item: Entry)
    requires DistinctKeys(q) && q != []
    ensures Store(Push(q, item)) == StorePush(q, item)
    ensures Store(Drop(q, item.key)) == Store(q) - {item.key}
  {
    forall k ensures SameAt(Store(Push(q, item)), StorePush(q, item), k) { PushAt(q, item, k); }
    forall k ensures SameAt(Store(Drop(q, item.key)), Store(q) - {item.key}, k) { DropAt(q, item, k); }
    Extensional(Store(Push(q, item)), StorePush(q, item));
    Extensional(Store(Drop(q, item.key)), Store(q) - {item.key});
  }

  predicate SameAt(m: map<Key, Entry>, n: map<Key, Entry>, k: Key) {
    (k in m <==> k in n) && (k in m ==> m[k] == n[k])
  }

  lemma Extensional(m: map<Key, Entry>, n: map<Key, Entry>)
    requires forall k :: SameAt(m, n, k)
    ensures m == n
  {
    forall k ensures k in m <==> k in n { assert SameAt(m, n, k); }
    forall k | k in m ensures m[k] == n[k] { assert SameAt(m, n, k); }
  }

  lemma PushAt(q: Slots, item: Entry, k: Key)
    requires DistinctKeys(q) && q != []
    ensures SameAt(Store(Push(q, item)), StorePush(q, item), k)
  {
    PushKeepsDistinct(q, item);
    FindAfter(q, item, k);
    StoreAt(q, k);
    StoreAt(q, item.key);
    StoreAt(Push(q, item), k);
    if k in Evicted(q) { FoundAt(q, k, 0); }
  }

  lemma DropAt(q: Slots, item: Entry, k: Key)
    requires DistinctKeys(q) && q != []
    ensures SameAt(Store(Drop(q, item.key)), Store(q) - {item.key}, k)
  {
    PushKeepsDistinct(q, item);
    FindAfter(q, item, k);
    StoreAt(q, k);
    StoreAt(Drop(q, item.key), k);
  }

  predicate FindAfterPush(q: Slots, item: Entry, k: Key) {
    var i, j := FindIndex(q, k), FindIndex(Push(q, item), k);
    if k == item.key then j >= 0 && Push(q, item)[j] == Some(item)
    else if FindIndex(q, item.key) >= 0 || q == [] then j == i && (i >= 0 ==> Push(q, item)[j] == q[i])
    else (j >= 0 <==> i >= 1) && (j >= 0 ==> j == i - 1 && Push(q, item)[j] == q[i])
  }

  predicate FindAfterDrop(q: Slots, key: Key, k: Key) {
    var i, j := FindIndex(q, k), FindIndex(Drop(q, key), k);
    if k == key then j == -1 else j == i && (i >= 0 ==> Drop(q, key)[j] == q[i])
  }

  lemma FindAfter(q: Slots, item: Entry, k: Key)
    requires DistinctKeys(q) && q != []
    ensures FindAfterPush(q, item, k) && FindAfterDrop(q, item.key, k)
  {
    PushKeepsDistinct(q, item);
    var added, dropped := Push(q, item), Drop(q, item.key);
    var at, i := FindIndex(q, item.key), FindIndex(q, k);
    if k == item.key {
      FoundAt(added, k, if at >= 0 then at else |q| - 1);
    } else if i >= 0 {
      FoundAt(dropped, k, i);
      if at >= 0 { FoundAt(added, k, i); }
      else if i >= 1 { FoundAt(added, k, i - 1); }
    }
  }

  // ----- how long an entry lives -----

  datatype Op = AddOrUpdate(item: Entry) | Remove(key: Key)

  function Step(q: Slots, op: Op): Slots {
    match op
    case AddOrUpdate(item) => Push(q, item)
    case Remove(key) => Drop(q, key)
  }

  function Run(q: Slots, ops: seq<Op>): Slots
    decreases |ops|
  {
    if ops == [] then q else Run(Step(q, ops[0]), ops[1..])
  }

  /** Does the operation insert a key the queue does not hold? */
  predicate Inserts(q: Slots, op: Op) {
    op.AddOrUpdate? && FindIndex(q, op.item.key) == -1
  }

  function Insertions(q: Slots, ops: seq<Op>): nat
    decreases |ops|
  {
    if ops == [] then 0
    else Insertions(Step(q, ops[0]), ops[1..]) + if Inserts(q, ops[0]) then 1 else 0
  }

  function Update(item: Entry, op: Op): (e: Entry)
    ensures e.key == item.key
  {
    if op.AddOrUpdate? && op.item.key == item.key then op.item else item
  }

  /** The value a key was last given, starting from `item`. */
  function Latest(item: Entry, ops: seq<Op>): (e: Entry)
    ensures e.key == item.key
    decreases |ops|
  {
    if ops == [] then item else Latest(Update(item, ops[0]), ops[1..])
  }

  predicate NeverRemoves(ops: seq<Op>, key: Key) {
    forall op :: op in ops ==> op != Remove(key)
  }

  lemma StepMoves(q: Slots, p: nat, item: Entry, op: Op)
    requires DistinctKeys(q) && p < |q| && q[p] == Some(item) && op != Remove(item.key)
    requires Inserts(q, op) ==> p > 0
    ensures var next := Step(q, op);
      |next| == |q| && DistinctKeys(next) && next[if Inserts(q, op) then p - 1 else p] == Some(Update(item, op))
  {
    FoundAt(q, item.key, p);
    PushKeepsDistinct(q, if op.AddOrUpdate? then op.item else Entry(op.key, NoState, 0));
  }

  /** From position `p` on, at most `p` insertions move an entry forward by as many positions; updates
      and removals of other keys do not move it. */
  lemma {:induction false} EntryMovesForward(q: Slots, p: nat, item: Entry, ops: seq<Op>, left: nat)
    requires DistinctKeys(q) && p < |q| && q[p] == Some(item)
    requires NeverRemoves(ops, item.key) && p == left + Insertions(q, ops)
    ensures |Run(q, ops)| == |q| && DistinctKeys(Run(q, ops)) && Run(q, ops)[left] == Some(Latest(item, ops))
    decreases |ops|
  {
    if ops != [] {
      assert ops[0] in ops && forall op :: op in ops[1..] ==> op in ops;
      StepMoves(q, p, item, ops[0]);
      var next := if Inserts(q, ops[0]) then p - 1 else p;
      EntryMovesForward(Step(q, ops[0]), next, Update(item, ops[0]), ops[1..], left);
    }
  }

  /** A newly inserted entry goes to the back of the queue. */
  lemma InsertedLast(q: Slots, item: Entry, after: Slots)
    requires DistinctKeys(q) && q != [] && FindIndex(q, item.key) == -1 && after == Push(q, item)
    ensures DistinctKeys(after) && |after| == |q| && after[|q| - 1] == Some(item)
  {
    PushKeepsDistinct(q, item);
  }

  /** A newly inserted entry that is not removed is retrievable, with its latest value, through the
      next N - 1 insertions of new keys, whatever updates and removals of other keys come between. */
  lemma QueueWindow(q: Slots, item: Entry, after: Slots, ops: seq<Op>)
    requires DistinctKeys(q) && q != [] && FindIndex(q, item.key) == -1 && after == Push(q, item)
    requires NeverRemoves(ops, item.key) && Insertions(after, ops) < |q|
    ensures item.key in Store(Run(after, ops)) && Store(Run(after, ops))[item.key] == Latest(item, ops)
  {
    InsertedLast(q, item, after);
    var left := |q| - 1 - Insertions(after, ops);
    EntryMovesForward(after, |q| - 1, item, ops, left);
    var end := Run(after, ops);
    FoundAt(end, item.key, left);
    StoreAt(end, item.key);
  }

  /** The N-th insertion of a new key after it overwrites it. */
  lemma QueueWindowCloses(q: Slots, item: Entry, after: Slots, ops: seq<Op>, last: Op)
    requires DistinctKeys(q) && q != [] && FindIndex(q, item.key) == -1 && after == Push(q, item)
    requires NeverRemoves(ops, item.key) && Insertions(after, ops) == |q| - 1
    requires Inserts(Run(after, ops), last)
    ensures item.key in Store(Run(after, ops))
    ensures item.key !in Store(Step(Run(after, ops), last))
  {
    InsertedLast(q, item, after);
    EntryMovesForward(after, |q| - 1, item, ops, 0);
    OldestIsOverwritten(Run(after, ops), item.key, last.item);
  }

  lemma OldestIsOverwritten(q: Slots, key: Key, item: Entry)
    requires DistinctKeys(q) && q != [] && Holds(q[0], key) && FindIndex(q, item.key) == -1
    ensures key in Store(q) && key !in Store(Push(q, item))
  {
    FoundAt(q, key, 0);
    StoreAt(q, key);
    PushKeepsDistinct(q, item);
    FindAfter(q, item, key);
    StoreAt(Push(q, item), key);
  }

  // ----- the window on the ring itself -----

  function RingStep(r: Ring, op: Op): Ring {
    match op
    case AddOrUpdate(item) => RingAddOrUpdate(r, item)
    case Remove(key) => RingRemove(r, key)
  }

  function RingRun(r: Ring, ops: seq<Op>): Ring
    decreases |ops|
  {
    if ops == [] then r else RingRun(RingStep(r, ops[0]), ops[1..])
  }

  predicate RingInserts(r: Ring, op: Op) {
    op.AddOrUpdate? && FindIndex(r.slots, op.item.key) == -1
  }

  /** How many operations of a run insert a key the ring does not hold by then. */
  function RingInsertions(r: Ring, ops: seq<Op>): nat
    decreases |ops|
  {
    if ops == [] then 0
    else RingInsertions(RingStep(r, ops[0]), ops[1..]) + if RingInserts(r, ops[0]) then 1 else 0
  }

  lemma StepOnQueue(r: Ring, op: Op)
    requires WellFormed(r)
    ensures WellFormed(RingStep(r, op)) && Queue(RingStep(r, op)) == Step(Queue(r), op)
    ensures RingInserts(r, op) <==> Inserts(Queue(r), op)
  {
    var item := if op.AddOrUpdate? then op.item else Entry(op.key, NoState, 0);
    RingRefinesQueue(r, item);
    QueueFind(r, item.key);
  }

  /** Every run on the ring is the run on its queue. */
  lemma {:induction false} RunOnQueue(r: Ring, ops: seq<Op>)
    requires WellFormed(r)
    ensures WellFormed(RingRun(r, ops)) && Queue(RingRun(r, ops)) == Run(Queue(r), ops)
    ensures RingInsertions(r, ops) == Insertions(Queue(r), ops)
    decreases |ops|
  {
    if ops != [] {
      StepOnQueue(r, ops[0]);
      RunOnQueue(RingStep(r, ops[0]), ops[1..]);
    }
  }

  lemma AfterInsertion(r: Ring, item: Entry, after: Ring, ops: seq<Op>)
    requires WellFormed(r) && r.slots != [] && FindIndex(r.slots, item.key) == -1
    requires after == RingAddOrUpdate(r, item)
    ensures FindIndex(Queue(r), item.key) == -1 && DistinctKeys(Queue(r)) && |Queue(r)| == |r.slots|
    ensures WellFormed(after) && Queue(after) == Push(Queue(r), item)
    ensures RingInsertions(after, ops) == Insertions(Queue(after), ops)
    ensures WellFormed(RingRun(after, ops)) && Queue(RingRun(after, ops)) == Run(Queue(after), ops)
  {
    QueueFind(r, item.key);
    QueueIsDistinct(r);
    RingRefinesQueue(r, item);
    RunOnQueue(after, ops);
  }

  /** A newly inserted entry that is not removed is found in the ring, with its latest value, through the next
      N - 1 insertions of new keys. */
  lemma Window(r: Ring, item: Entry, after: Ring, ops: seq<Op>)
    requires WellFormed(r) && r.slots != [] && FindIndex(r.slots, item.key) == -1
    requires after == RingAddOrUpdate(r, item)
    requires NeverRemoves(ops, item.key) && RingInsertions(after, ops) < |r.slots|
    ensures var end := RingRun(after, ops).slots;
      FindIndex(end, item.key) >= 0 && end[FindIndex(end, item.key)] == Some(Latest(item, ops))
  {
    AfterInsertion(r, item, after, ops);
    QueueWindow(Queue(r), item, Queue(after), ops);
    SlotsHoldTheStore(RingRun(after, ops), item.key);
  }

  /** The N-th insertion of a new key overwrites it. */
  lemma WindowCloses(r: Ring, item: Entry, after: Ring, ops: seq<Op>, last: Op)
    requires WellFormed(r) && r.slots != [] && FindIndex(r.slots, item.key) == -1
    requires after == RingAddOrUpdate(r, item)
    requires NeverRemoves(ops, item.key) && RingInsertions(after, ops) == |r.slots| - 1
    requires RingInserts(RingRun(after, ops), last)
    ensures FindIndex(RingRun(after, ops).slots, item.key) >= 0
    ensures FindIndex(RingStep(RingRun(after, ops), last).slots, item.key) == -1
  {
    AfterInsertion(r, item, after, ops);
    var end := RingRun(after, ops);
    StepOnQueue(end, last);
    QueueWindowCloses(Queue(r), item, Queue(after), ops, last);
    SlotsHoldTheStore(end, item.key);
    SlotsHoldTheStore(RingStep(end, last), item.key);
  }

  // ----- the ring as it is built -----

  /** What the constructor makes of `items`, none of them null. */
  predicate Built(r: Ring, items: Slots) {
    && |items| <= |r.slots| && DistinctKeys(items) && NoneNull(items)
    && r == Ring(items + seq(|r.slots| - |items|, _ => None), |items|)
  }

  /** The free slots come first in overwriting order, then the items. */
  lemma BuiltInOrder(r: Ring, items: Slots, i: nat)
    requires Built(r, items) && i < |items|
    ensures WellFormed(r) && DistinctKeys(Queue(r)) && |Queue(r)| == |r.slots|
    ensures Queue(r)[|r.slots| - |items| + i] == items[i]
  {
    QueueIsDistinct(r);
    QueueAt(r, PositionOf(r, i));
  }

  /** The first insertions of new keys fill the free slots: with f of them the i-th item is found, with its latest value,
      through f + i insertions. */
  lemma ItemsOutliveTheFreeSlots(r: Ring, items: Slots, i: nat, ops: seq<Op>)
    requires Built(r, items) && i < |items| && NeverRemoves(ops, items[i].value.key)
    requires RingInsertions(r, ops) <= |r.slots| - |items| + i
    ensures var end, item := RingRun(r, ops).slots, items[i].value;
      FindIndex(end, item.key) >= 0 && end[FindIndex(end, item.key)] == Some(Latest(item, ops))
  {
    var p, item := |r.slots| - |items| + i, items[i].value;
    BuiltInOrder(r, items, i);
    RunOnQueue(r, ops);
    EntryMovesForward(Queue(r), p, item, ops, p - RingInsertions(r, ops));
    var end := RingRun(r, ops);
    FoundAt(Queue(end), item.key, p - RingInsertions(r, ops));
    QueueFind(end, item.key);
    QueueAt(end, p - RingInsertions(r, ops));
  }

  /** The next insertion overwrites it. */
  lemma ItemsAreOverwrittenInOrder(r: Ring, items: Slots, i: nat, ops: seq<Op>, last: Op)
    requires Built(r, items) && i < |items| && NeverRemoves(ops, items[i].value.key)
    requires RingInsertions(r, ops) == |r.slots| - |items| + i && RingInserts(RingRun(r, ops), last)
    ensures FindIndex(RingStep(RingRun(r, ops), last).slots, items[i].value.key) == -1
  {
    var item, end := items[i].value, RingRun(r, ops);
    BuiltInOrder(r, items, i);
    RunOnQueue(r, ops);
    EntryMovesForward(Queue(r), |r.slots| - |items| + i, item, ops, 0);
    StepOnQueue(end, last);
    OldestIsOverwritten(Queue(end), item.key, last.item);
    SlotsHoldTheStore(RingStep(end, last), item.key);
  }

  // ----- IsEmpty -----

  /** `IsEmpty` overlooks the empty key: a buffer can report empty while an entry is retrievable. */
  lemma IsEmptyOverlooksTheEmptyKey(q: Slots)
    requires DistinctKeys(q)
    ensures (forall i :: 0 <= i < |q| && q[i].Some? ==> q[i].value.key == Key("", ""))
      <==> Store(q).Keys <= {Key("", "")}
  {
    forall i | 0 <= i < |q| && q[i].Some? ensures q[i].value.key in Store(q) {
      assert q[i].value.key in LiveKeys(q);
    }
  }
}
