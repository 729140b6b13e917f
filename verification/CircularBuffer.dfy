/** The bounded store of idempotency entries: a ring of slots, updated in place by key, where a removal
    leaves a hole and the insertion cursor never looks for one. */
module CircularBuffer {
  import opened Options

  datatype EntryState = NoState | Reserved | Processing | Committed

  datatype Key = Key(instanceId: string, idempotencyKey: string)

  /** Two entries are the same entry when their keys are; state and timestamp do not count. */
  datatype Entry = Entry(key: Key, state: EntryState, timestamp: int)

  const EMPTY_KEY := Key("", "")
  const EMPTY_ENTRY := Entry(EMPTY_KEY, NoState, 0)

  type Slots = seq<Option<Entry>>

  datatype Ring = Ring(slots: Slots, cursor: nat)

  predicate Holds(slot: Option<Entry>, key: Key) {
    slot.Some? && slot.value.key == key
  }

  /** `Array.FindIndex`: the first slot holding the key, or -1. */
  function FindIndex(slots: Slots, key: Key): (i: int)
    ensures -1 <= i < |slots|
    ensures i >= 0 ==> Holds(slots[i], key) && forall j :: 0 <= j < i ==> !Holds(slots[j], key)
    ensures i == -1 ==> forall j :: 0 <= j < |slots| ==> !Holds(slots[j], key)
  {
    if slots == [] then -1
    else
      var last := |slots| - 1;
      var i := FindIndex(slots[..last], key);
      if i >= 0 then i else if Holds(slots[last], key) then last else -1
  }

  predicate DistinctKeys(slots: Slots) {
    forall i, j :: 0 <= i < j < |slots| && slots[i].Some? ==> !Holds(slots[j], slots[i].value.key)
  }

  predicate InBounds(r: Ring) { r.cursor <= |r.slots| }

  /** A ring whose items were distinct to begin with. */
  predicate WellFormed(r: Ring) {
    InBounds(r) && DistinctKeys(r.slots)
  }

  function CountLive(slots: Slots): (n: nat)
    ensures n <= |slots|
  {
    if slots == [] then 0 else CountLive(slots[..|slots| - 1]) + if slots[|slots| - 1].Some? then 1 else 0
  }

  /** The places of the items that are not null. */
  ghost function LiveSlots(slots: Slots): set<nat> {
    set i | 0 <= i < |slots| && slots[i].Some?
  }

  lemma OneMoreLive(slots: Slots, last: nat)
    requires |slots| == last + 1
    ensures LiveSlots(slots) == LiveSlots(slots[..last]) + if slots[last].Some? then {last} else {}
    ensures last !in LiveSlots(slots[..last])
  {
  }

  lemma {:induction false} CountIsSize(slots: Slots)
    ensures CountLive(slots) == |LiveSlots(slots)|
  {
    if slots == [] {
      assert LiveSlots(slots) == {};
    } else {
      CountIsSize(slots[..|slots| - 1]);
      OneMoreLive(slots, |slots| - 1);
    }
  }

  predicate NoneNull(slots: Slots) { forall i :: 0 <= i < |slots| ==> slots[i].Some? }

  lemma {:induction false} CountAll(slots: Slots)
    requires NoneNull(slots)
    ensures CountLive(slots) == |slots|
  {
    if slots != [] { CountAll(slots[..|slots| - 1]); }
  }

  /** The cursor starts at the number of items that are not null: behind the last one if none is. */
  ghost predicate CursorAt(items: Slots, index: nat) {
    index == |LiveSlots(items)| && (NoneNull(items) ==> index == |items|)
  }

  lemma CursorIsRight(items: Slots)
    ensures CursorAt(items, CountLive(items))
  {
    CountIsSize(items);
    if NoneNull(items) { CountAll(items); }
  }

  /** The slot the next insertion overwrites. */
  function NextSlot(r: Ring): nat {
    if r.cursor >= |r.slots| then 0 else r.cursor
  }

  function RingAddOrUpdate(r: Ring, item: Entry): Ring {
    var i := FindIndex(r.slots, item.key);
    if r.slots == [] then r
    else if i >= 0 then r.(slots := r.slots[i := Some(item)])
    else Ring(r.slots[NextSlot(r) := Some(item)], NextSlot(r) + 1)
  }

  function RingRemove(r: Ring, key: Key): Ring {
    var i := FindIndex(r.slots, key);
    if i >= 0 then r.(slots := r.slots[i := None]) else r
  }

  // ----- the keyed store a ring holds -----

  /** The slots in the order the cursor will overwrite them. */
  function Queue(r: Ring): Slots {
    r.slots[NextSlot(r)..] + r.slots[..NextSlot(r)]
  }

  lemma FoundAt(slots: Slots, key: Key, i: nat)
    requires DistinctKeys(slots) && i < |slots| && Holds(slots[i], key)
    ensures FindIndex(slots, key) == i
  {
  }

  /** The queue position of a slot, and back. */
  lemma QueueAt(r: Ring, p: nat)
    requires r.cursor <= |r.slots| && p < |r.slots|
    ensures Queue(r)[p] == r.slots[SlotOf(r, p)]
  {
  }

  function SlotOf(r: Ring, p: nat): (s: nat)
    requires r.cursor <= |r.slots| && p < |r.slots|
    ensures s < |r.slots|
  {
    var c := NextSlot(r);
    if p < |r.slots| - c then c + p else p - (|r.slots| - c)
  }

  function PositionOf(r: Ring, s: nat): (p: nat)
    requires r.cursor <= |r.slots| && s < |r.slots|
    ensures p < |r.slots| && SlotOf(r, p) == s
  {
    var c := NextSlot(r);
    if c <= s then s - c else s + (|r.slots| - c)
  }

  lemma QueueIsDistinct(r: Ring)
    requires WellFormed(r)
    ensures DistinctKeys(Queue(r)) && |Queue(r)| == |r.slots|
  {
    var q := Queue(r);
    forall i, j | 0 <= i < j < |q| && q[i].Some? ensures !Holds(q[j], q[i].value.key) {
      QueueAt(r, i);
      QueueAt(r, j);
      if Holds(q[j], q[i].value.key) {
        FoundAt(r.slots, q[i].value.key, SlotOf(r, i));
        FoundAt(r.slots, q[i].value.key, SlotOf(r, j));
      }
    }
  }

  lemma QueueFind(r: Ring, key: Key)
    requires WellFormed(r)
    ensures var s, p := FindIndex(r.slots, key), FindIndex(Queue(r), key);
      (s == -1 <==> p == -1) && (s >= 0 ==> p == PositionOf(r, s))
  {
    var s, p := FindIndex(r.slots, key), FindIndex(Queue(r), key);
    QueueIsDistinct(r);
    if s >= 0 {
      QueueAt(r, PositionOf(r, s));
      FoundAt(Queue(r), key, PositionOf(r, s));
    } else if p >= 0 {
      QueueAt(r, p);
    }
  }

  ghost function LiveKeys(q: Slots): set<Key> {
    set i | 0 <= i < |q| && q[i].Some? :: q[i].value.key
  }

  ghost function Store(q: Slots): map<Key, Entry> {
    map k | k in LiveKeys(q) :: q[FindIndex(q, k)].value
  }

  lemma StoreAt(q: Slots, key: Key)
    requires DistinctKeys(q)
    ensures key in Store(q) <==> FindIndex(q, key) >= 0
    ensures key in Store(q) ==> Store(q)[key] == q[FindIndex(q, key)].value && Store(q)[key].key == key
  {
    var i := FindIndex(q, key);
    if i >= 0 { assert q[i].value.key in LiveKeys(q); }
  }

  /** What `FindIndex` finds in the slots is what the store holds. */
  lemma SlotsHoldTheStore(r: Ring, key: Key)
    requires WellFormed(r)
    ensures FindIndex(r.slots, key) >= 0 <==> key in Store(Queue(r))
    ensures FindIndex(r.slots, key) >= 0 ==> r.slots[FindIndex(r.slots, key)] == Some(Store(Queue(r))[key])
  {
    QueueIsDistinct(r);
    QueueFind(r, key);
    StoreAt(Queue(r), key);
    var s := FindIndex(r.slots, key);
    if s >= 0 { QueueAt(r, PositionOf(r, s)); }
  }

  /** Which keys are live does not depend on their being distinct. */
  lemma LiveInSlots(r: Ring, key: Key)
    requires InBounds(r)
    ensures key in Store(Queue(r)) <==> exists i :: 0 <= i < |r.slots| && Holds(r.slots[i], key)
  {
    var q := Queue(r);
    if key in Store(q) {
      var p :| 0 <= p < |q| && q[p].Some? && q[p].value.key == key;
      QueueAt(r, p);
      assert Holds(r.slots[SlotOf(r, p)], key);
    }
    if i :| 0 <= i < |r.slots| && Holds(r.slots[i], key) {
      QueueAt(r, PositionOf(r, i));
      assert q[PositionOf(r, i)].value.key in LiveKeys(q);
    }
  }

  /** Distinct keys stay distinct. */
  lemma RingKeepsDistinct(r: Ring, item: Entry)
    requires WellFormed(r)
    ensures WellFormed(RingAddOrUpdate(r, item)) && WellFormed(RingRemove(r, item.key))
  {
  }

  lemma StartsDistinct(items: Slots, capacity: nat, index: nat)
    requires DistinctKeys(items) && |items| <= capacity && index <= capacity
    ensures WellFormed(Ring(items + seq(capacity - |items|, _ => None), index))
  {
  }

  datatype CreateError = NegativeCapacity | NullItems | TooManyItems

  class EntryCircularBuffer {
    const capacity: nat
    const buffer: array<Option<Entry>>
    var index: nat

    ghost predicate Valid()
      reads this, buffer
    {
      buffer.Length == capacity && InBounds(AsRing())
    }

    ghost function AsRing(): Ring
      reads this, buffer
    {
      Ring(buffer[..], index)
    }

    /** Copies the items into the first slots. The cursor starts at the number of items that are not null, so
        a null among them leaves it pointing at an item instead of behind the last one. */
    constructor (capacity: nat, items: Slots)
      requires |items| <= capacity
      ensures (DistinctKeys(items) ==> WellFormed(AsRing()))
      ensures Valid() && fresh(buffer) && this.capacity == capacity
      ensures buffer[..] == items + seq(capacity - |items|, _ => None)
      ensures CursorAt(items, index)
    {
      this.capacity := capacity;
      buffer := new Option<Entry>[capacity](_ => None);
      index := 0;
      new;
      var live := 0;
      for i := 0 to |items|
        invariant buffer[..i] == items[..i] && forall j :: i <= j < capacity ==> buffer[j] == None
        invariant live == CountLive(items[..i])
      {
        buffer[i] := items[i];
        assert items[..i + 1][..i] == items[..i];
        if items[i].Some? { live := live + 1; }
      }
      assert items[..|items|] == items;
      CursorIsRight(items);
      index := live;
      assert buffer[..] == items + seq(capacity - |items|, _ => None);
      if DistinctKeys(items) { StartsDistinct(items, capacity, live); }
    }

    method AddOrUpdate(item: Entry)
      requires Valid()
      modifies this, buffer
      ensures Valid() && AsRing() == RingAddOrUpdate(old(AsRing()), item)
      ensures old(WellFormed(AsRing())) ==> WellFormed(AsRing())
    {
      ghost var before := AsRing();
      if WellFormed(before) { RingKeepsDistinct(before, item); }
      if capacity == 0 { return; }
      var found := Find(item.key);
      if found >= 0 {
        buffer[found] := Some(item);
      } else {
        AddItem(item);
      }
    }

    method AddItem(item: Entry)
      requires Valid() && capacity > 0
      modifies this, buffer
      ensures Valid()
      ensures buffer[..] == old(buffer[..])[NextSlot(old(AsRing())) := Some(item)]
      ensures index == NextSlot(old(AsRing())) + 1
    {
      if index >= capacity { index := 0; }
      buffer[index] := Some(item);
      index := index + 1;
    }

    method Remove(key: Key)
      requires Valid()
      modifies buffer
      ensures Valid() && AsRing() == RingRemove(old(AsRing()), key)
      ensures old(WellFormed(AsRing())) ==> WellFormed(AsRing())
    {
      ghost var before := AsRing();
      if WellFormed(before) { RingKeepsDistinct(before, Entry(key, NoState, 0)); }
      if capacity == 0 { return; }
      var found := Find(key);
      if found >= 0 { buffer[found] := None; }
    }

    method Find(key: Key) returns (i: int)
      requires Valid()
      ensures i == FindIndex(buffer[..], key)
    {
      i := 0;
      while i < capacity
        invariant 0 <= i <= capacity
        invariant forall j :: 0 <= j < i ==> !Holds(buffer[j], key)
      {
        if Holds(buffer[i], key) { return; }
        i := i + 1;
      }
      i := -1;
    }

    /** The ring as a keyed store. */
    ghost function Entries(): map<Key, Entry>
      reads this, buffer
      requires Valid()
    {
      Store(Queue(AsRing()))
    }

    method Contains(key: Key) returns (r: bool)
      requires Valid()
      ensures r <==> key in Entries()
    {
      LiveInSlots(AsRing(), key);
      if capacity == 0 { return false; }
      var i := Find(key);
      r := i != -1;
    }

    /** The stored entry; among several with one key, which distinct items exclude, the one in the first slot. */
    method GetEntry(key: Key) returns (e: Entry)
      requires Valid()
      ensures key !in Entries() ==> e == Entry(Key("", ""), NoState, 0)
      ensures key in Entries() && WellFormed(AsRing()) ==> e == Entries()[key]
      ensures key in Entries() ==> FindIndex(buffer[..], key) >= 0 && Some(e) == buffer[FindIndex(buffer[..], key)]
    {
      LiveInSlots(AsRing(), key);
      if WellFormed(AsRing()) { SlotsHoldTheStore(AsRing(), key); }
      if capacity == 0 { return EMPTY_ENTRY; }
      var i := Find(key);
      e := if i != -1 then buffer[i].value else EMPTY_ENTRY;
    }

    /** True also of a buffer that still holds an entry whose key is the empty one. */
    method IsEmpty() returns (r: bool)
      requires Valid()
      ensures r <==> Entries().Keys <= {Key("", "")}
      ensures r <==> forall i :: 0 <= i < capacity && buffer[i].Some? ==> buffer[i].value.key == Key("", "")
    {
      for i := 0 to capacity
        invariant forall j :: 0 <= j < i && buffer[j].Some? ==> buffer[j].value.key == EMPTY_KEY
      {
        if buffer[i].Some? && buffer[i].value.key != EMPTY_KEY {
          LiveInSlots(AsRing(), buffer[i].value.key);
          return false;
        }
      }
      r := true;
      forall k | k in Entries() ensures k == EMPTY_KEY { LiveInSlots(AsRing(), k); }
    }
  }

  /** The constructor with its argument checks, in their order. */
  method Create(capacity: int, items: Option<Slots>) returns (error: Option<CreateError>, buffer: EntryCircularBuffer?)
    ensures error == if capacity < 0 then Some(NegativeCapacity) else if items.None? then Some(NullItems)
                     else if |items.value| > capacity then Some(TooManyItems) else None
    ensures error.None? <==> buffer != null
    ensures buffer != null ==>
      && fresh(buffer) && buffer.Valid() && buffer.capacity == capacity
      && (DistinctKeys(items.value) ==> WellFormed(buffer.AsRing()))
      && buffer.buffer[..] == items.value + seq(capacity - |items.value|, _ => None)
      && CursorAt(items.value, buffer.index)
  {
    buffer := null;
    if capacity < 0 { return Some(NegativeCapacity), null; }
    if items.None? { return Some(NullItems), null; }
    if |items.value| > capacity { return Some(TooManyItems), null; }
    error := None;
    buffer := new EntryCircularBuffer(capacity, items.value);
  }
}
