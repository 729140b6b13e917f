/** Consuming a message at most once: a key is looked up and reserved, marked, the message is run, and the
    key is committed, or rolled back when anything throws. Keys live in a table with a bounded buffer
    per instance in front of it. Every table command may throw, before or after it took effect. */
module IdempotentConsumer {
  import opened Options
  import opened CircularBuffer

  /** The in-memory repository: one ring per instance. */
  type Memory = map<string, Ring>

  datatype Repository = Repository(memory: Memory, table: map<Key, EntryState>)

  datatype Fault = Fine | ThrowsBefore | ThrowsAfter

  /** What goes wrong during one call: the lookup query, the reservation, the marking, the commit and
      the rollback. */
  datatype Faults = Faults(lookup: bool, reserve: Fault, mark: Fault, commit: Fault, rollback: Fault)

  const NO_FAULTS := Faults(false, Fine, Fine, Fine, Fine)

  datatype Outcome<+R> = Ignored | Consumed(result: R) | Threw

  /** A call: the outcome, whether the message was run, and the repository it leaves. */
  datatype Called<+R> = Called(repository: Repository, outcome: Outcome<R>, ran: bool)

  function EmptyRing(capacity: nat): Ring {
    Ring(seq(capacity, _ => None), 0)
  }

  function RingOf(m: Memory, capacity: nat, instanceId: string): Ring {
    if instanceId in m then m[instanceId] else EmptyRing(capacity)
  }

  predicate Remembers(m: Memory, key: Key) {
    key.instanceId in m && FindIndex(m[key.instanceId].slots, key) >= 0
  }

  function Remember(m: Memory, capacity: nat, item: Entry): Memory {
    m[item.key.instanceId := RingAddOrUpdate(RingOf(m, capacity, item.key.instanceId), item)]
  }

  predicate ReportsEmpty(r: Ring) {
    forall i :: 0 <= i < |r.slots| && r.slots[i].Some? ==> r.slots[i].value.key == EMPTY_KEY
  }

  /** A ring that reports empty after the removal is thrown away. */
  function Forget(m: Memory, key: Key): Memory {
    if key.instanceId !in m then m
    else
      var left := RingRemove(m[key.instanceId], key);
      if ReportsEmpty(left) then m - {key.instanceId} else m[key.instanceId := left]
  }

  predicate Known(r: Repository, key: Key) {
    Remembers(r.memory, key) || key in r.table
  }

  /** Memory is written first and never fails; the table follows unless its command throws before. */
  function Write(r: Repository, capacity: nat, item: Entry, fault: Fault): Repository {
    Repository(Remember(r.memory, capacity, item),
               if fault == ThrowsBefore then r.table else r.table[item.key := item.state])
  }

  function Erase(r: Repository, key: Key, fault: Fault): Repository {
    Repository(Forget(r.memory, key), if fault == ThrowsBefore then r.table else r.table - {key})
  }

  /** One call. `run` is what the message's function returns, or nothing when it throws. The lookup
      query is asked only when the memory does not know the key. */
  function Process<R>(r: Repository, capacity: nat, key: Key, now: int, faults: Faults, run: Option<R>): Called<R> {
    if Remembers(r.memory, key) then Called(r, Ignored, false)
    else if faults.lookup then Called(r, Threw, false)
    else if key in r.table then Called(r, Ignored, false)
    else
      var reserved := Write(r, capacity, Entry(key, Reserved, now), faults.reserve);
      if faults.reserve != Fine then Called(reserved, Threw, false)
      else
        var marked := Write(reserved, capacity, Entry(key, Processing, now), faults.mark);
        if faults.mark != Fine then Called(Erase(marked, key, faults.rollback), Threw, false)
        else if run.None? then Called(Erase(marked, key, faults.rollback), Threw, true)
        else
          var committed := Write(marked, capacity, Entry(key, Committed, now), faults.commit);
          if faults.commit != Fine then Called(Erase(committed, key, faults.rollback), Threw, true)
          else Called(committed, Consumed(run.value), true)
  }

  /** What the lookup leaves and reports. */
  predicate Reserving(r: Repository, capacity: nat, key: Key, now: int, faults: Faults, after: Repository, found: bool, threw: bool) {
    if !Remembers(r.memory, key) && faults.lookup then threw && after == r
    else if Known(r, key) then found && !threw && after == r
    else !found && threw == (faults.reserve != Fine) && after == Write(r, capacity, Entry(key, Reserved, now), faults.reserve)
  }

  class SqlServerRepository {
    const capacity: nat
    var memory: Memory
    var table: map<Key, EntryState>

    function View(): Repository
      reads this
    {
      Repository(memory, table)
    }

    constructor (capacity: nat)
      ensures this.capacity == capacity && View() == Repository(map[], map[])
    {
      this.capacity := capacity;
      memory, table := map[], map[];
    }

    method Contains(key: Key, lookupThrows: bool) returns (found: bool, threw: bool)
      ensures threw <==> !Remembers(memory, key) && lookupThrows
      ensures !threw ==> (found <==> Known(View(), key))
    {
      found, threw := false, false;
      if Remembers(memory, key) { return true, false; }
      if lookupThrows { return false, true; }
      found := key in table;
    }

    method AddOrUpdate(item: Entry, fault: Fault) returns (threw: bool)
      modifies this
      ensures View() == Write(old(View()), capacity, item, fault)
      ensures threw <==> fault != Fine
    {
      memory := Remember(memory, capacity, item);
      if fault == ThrowsBefore { return true; }
      table := table[item.key := item.state];
      threw := fault == ThrowsAfter;
    }

    method Remove(key: Key, fault: Fault) returns (threw: bool)
      modifies this
      ensures View() == Erase(old(View()), key, fault)
      ensures threw <==> fault != Fine
    {
      memory := Forget(memory, key);
      if fault == ThrowsBefore { return true; }
      table := table - {key};
      threw := fault == ThrowsAfter;
    }
  }

  class Consumer {
    const repository: SqlServerRepository

    constructor (repository: SqlServerRepository)
      ensures this.repository == repository
    {
      this.repository := repository;
    }

    /** The strategy's lookup, which reserves a key it does not find. */
    method Exists(key: Key, now: int, faults: Faults) returns (found: bool, threw: bool)
      modifies repository
      ensures Reserving(old(repository.View()), repository.capacity, key, now, faults, repository.View(), found, threw)
    {
      found, threw := repository.Contains(key, faults.lookup);
      if threw || found { return; }
      threw := repository.AddOrUpdate(Entry(key, Reserved, now), faults.reserve);
    }

    method ProcessAsync<R>(key: Key, now: int, faults: Faults, run: Option<R>) returns (outcome: Outcome<R>, ran: bool)
      modifies repository
      ensures Called(repository.View(), outcome, ran)
           == Process(old(repository.View()), repository.capacity, key, now, faults, run)
    {
      var found, threw := Exists(key, now, faults);
      if threw { return Threw, false; }
      if found { return Ignored, false; }
      // the try block
      ran := false;
      threw := repository.AddOrUpdate(Entry(key, Processing, now), faults.mark);
      if !threw {
        ran := true;
        threw := run.None?;
      }
      if !threw {
        threw := repository.AddOrUpdate(Entry(key, Committed, now), faults.commit);
      }
      if !threw {
        return Consumed(run.value), ran;
      }
      // the catch block: whether or not the rollback throws too, the caller sees an exception
      var _ := repository.Remove(key, faults.rollback);
      outcome := Threw;
    }
  }
}
