# Verified models of the study repository's algorithms and protocols

Dafny models of the parts of the repository that compute something, with proofs of what they promise. Each part is
a group of modules: one follows the code (classes with the code's fields where the code updates objects, functions
where it computes), the others prove what holds of it over all inputs and all runs.

| modules | what they model |
|---|---|
| `Cashier`, `Denominations`, `CashierProperties`, `CashierOptimal`, `CashierCap`, `CashierAnswer` | a cash register: greedy change from a drawer that loses unavailable pieces as it meets them, when it has the fewest pieces, and the cap of fifty pieces of a type |
| `LunchBreak`, `LunchBreakProperties`, `LunchScenarios` | the lunch interval of a working day, taken at the period boundaries nearest noon |
| `CircularBuffer`, `CircularBufferProperties` | a keyed ring buffer with holes, seen as a queue and as a bounded store |
| `IdempotentConsumer`, `IdempotentConsumerProperties`, `IdempotencyWindow` | consuming a message at most once over a table with a ring buffer in front of it, and over the ring buffers alone |
| `Ledger`, `Blockchain`, `LedgerProperties`, `LedgerHistory`, `TamperEvidence` | mining, validation, balances, where every transaction goes, and what the hashes protect |
| `PeerSync`, `PeerNetwork`, `PeerForgery`, `PeerRewards` | nodes that exchange chains and adopt the longer valid one, also among forged messages, and what that does to the rewards |
| `Utf8`, `EventFrames`, `EventStream`, `EventRoundTrip`, `EventExactness`, `EventOnTheWire` | server-sent event frames written into a preallocated buffer, and a reader after sections 9.2.5 and 9.2.6 of the WHATWG HTML Living Standard |
| `ConfigurationParser`, `ConfigurationProperties`, `ConfigurationAnswer` | a JSON document walked into a flat configuration |
| `ShortGuid`, `ShortGuidAnswer` | Guids as 22 URL-safe Base64 characters (sections 4 and 5 of RFC 4648) |
| `SseLifecycle`, `SseLifecycleProperties`, `SseLostClients`, `SseQuietArrivals`, `SseReuse`, `SseReusedIds`, `SseService` | the life of event-stream clients: requests, sends, sweeps and expiry step by step over one map and one storage, and the objects that take those steps |
| `Options`, `Characters` | a value that may be missing; bytes and white space |

`dafny verify dfyconfig.toml` verifies everything.

## What the proofs found

- The register fails on payable amounts exactly when the smallest available piece does not divide all others: 10 with
  25 available, 200 with 500, 2000 with 5000. With 1 and 5 cents gone 30 cents is such an amount. For every unavailable
  list the failing amounts, and the amounts the cap rejects, are stated exactly.
- The change has the fewest pieces for every payable amount exactly when 10 and 25 leave 5 available too, 200 and 500
  leave 50 or 100, and 2000 and 5000 leave 500 or 1000.
- Taking lunch can leave a period that is empty or ends before it starts, exactly when half of the split period, or the
  pushed period, has no room for the hour.
- `IsEmpty` of the ring buffer overlooks an entry under the empty key. On the in-memory repository this lets the empty
  key be consumed twice: a failing message drops it whenever nothing else is left in its ring.
- The reservation of a message happens outside the protected block, so a reservation that throws is never rolled back
  and its message may never run. On the in-memory repository alone "at most once" ends with the N-th new key that is
  reserved in a ring of N slots.
- A block's index, everything in the genesis block but its hash, and every character outside ASCII can be changed
  without the validation noticing; so can a genesis hash that is not one of the digests.
- A node that adopts a longer chain keeps its own pending transactions but loses the ones it had already mined, and it
  counts a pending one twice if the sender has it too. The reward of a mining is only paid by the next block; when
  chains are exchanged in between it can be paid twice, so the supply law holds of a ledger by itself only.
- A carriage return or line feed in an event's name or data is written as it is. With one in its name the event never
  reads back; with one in its data it does not either, unless the id lines leave data behind.
- A colon in a configuration name can collide with nesting.
- A short Guid has further spellings: the standard alphabet, and sixteen last digits for each pair of bits.
- An event-stream request can cost a connected client its place exactly when it is let in while another request uses
  its id (`SseLifecycle.InUse`), even when that one has finished and only the sweep still holds its client. A late send
  costs nobody a place, but it can lock the id out: an id may come back without any risk exactly when it is quiet
  (`SseLifecycle.Quiet`). A sweep that has missed an id closes its client even if a send renews the id in between.
- A block that is added with a zero-prefixed hash of its own is not mined, and makes the chain invalid unless that hash
  happens to be right.

## Assumptions the statements carry

- Amounts are whole cents and times are whole ticks, as unbounded integers.
- Printing of time stamps, transactions and numbers and the digest are parameters (`Format`). What is used of them is
  in `GoodFormat`: a time stamp has no bracket, a list of transactions starts with one, a digest is 44 characters of
  ASCII without separator or bracket. Mining is given some good nonce ahead; tamper evidence asks that the texts
  compared do not collide.
- Folding of letters to compare configuration keys is a parameter (`Folding`). `GoodFolding`, where needed, asks that
  it keeps the colon apart from everything else and tells digits apart.
- Which commands of a table or of a message throw, and when, is a parameter of each call (`Faults`).
- Where `FreeAdmissions` says so, an event-stream request is let in only while no other request uses its id; where
  `QuietArrivals` says so, ids arrive quiet, as new ids do. Refusals, and whether ids expire in the storage, are part of
  the run.

## Model

| member | source | states |
|---|---|---|
| `Cashier.Register.GetChangeMoney` | Estudos-Tests/Mutation/Estudos.Tests.Mutation/Cashier.cs:46-79 | Whatever earlier purchases pruned from the drawer, the outcome is the one of a fresh register with the same unavailable list: the two argument errors, the null dereference, the cap, or the change |
| `Cashier.Register.Dispense` | Estudos-Tests/Mutation/Estudos.Tests.Mutation/Cashier.cs:57-74 | The loop over the lazily pruned drawer pays exactly what greedy pays from the drawer with every unavailable piece taken out at once, and it ends |
| `Cashier.Register.constructor` | Estudos-Tests/Mutation/Estudos.Tests.Mutation/Cashier.cs:12-38 | A register starts with the twelve pieces of the full drawer and the unavailable list |
| `Cashier.Register.IsUnavailable` | Estudos-Tests/Mutation/Estudos.Tests.Mutation/Cashier.cs:86-89 | A piece is unavailable exactly when a list was given and the piece is on it |
| `Cashier.ListedExactly` | Estudos-Tests/Mutation/Estudos.Tests.Mutation/Cashier.cs:86-89 | The pieces taken out of the drawer are exactly those on the list, if one was given |
| `Cashier.FirstOption` | Estudos-Tests/Mutation/Estudos.Tests.Mutation/Cashier.cs:118-121 | A piece found is in the drawer and fits the amount; none is found exactly when no piece fits |
| `Cashier.Remove` | Estudos-Tests/Mutation/Estudos.Tests.Mutation/Cashier.cs:69 | Takes one piece out of the drawer, which then is one piece shorter if it held it |
| `Cashier.CheckMaxQuantityByMoneyType` | Estudos-Tests/Mutation/Estudos.Tests.Mutation/Cashier.cs:95-111 | The grouping accepts exactly when every type of money has at most fifty pieces |
| `Cashier.PruningKeepsFirstOption` | Estudos-Tests/Mutation/Estudos.Tests.Mutation/Cashier.cs:65-71 | Taking out more pieces than the loop has pruned does not change an available piece it finds, and finds none where it finds none |
| `Cashier.LazyStep` | Estudos-Tests/Mutation/Estudos.Tests.Mutation/Cashier.cs:63-74 | One turn of the loop: either nothing fits in either drawer, or one unavailable piece is pruned, or the next greedy piece is handed out |
| `CashierProperties.ChangeIsExact` | Estudos-Tests/Mutation/Estudos.Tests.Mutation/Cashier.cs:57-79 | Every change handed out sums to exactly what is owed, largest piece first, without an unavailable piece, and within the cap |
| `CashierAnswer.ChangeExactly` | Estudos-Tests/Mutation/Estudos.Tests.Mutation/Cashier.cs:57-89 | A change is handed out if and only if both arguments are positive, the pieces add up to what is owed, each is the largest one in the drawer and not on the list that fits what those before it leave, and no type has more than fifty |
| `CashierAnswer.NothingFitsExactly` | Estudos-Tests/Mutation/Estudos.Tests.Mutation/Cashier.cs:63-74 | The null dereference happens if and only if no pieces add up to what is owed in this way |
| `CashierAnswer.RejectedExactly` | Estudos-Tests/Mutation/Estudos.Tests.Mutation/Cashier.cs:76-111 | The cap rejects such pieces if and only if more than fifty of them are of one type |
| `CashierAnswer.ListedIsNeverHandedOut` | Estudos-Tests/Mutation/Estudos.Tests.Mutation/Cashier.cs:65-71 | Every piece of a change is in the drawer and not on the list that was given |
| `CashierAnswer.FiveIsOnTheList` | Estudos-Tests/Mutation/Estudos.Tests.Mutation/Cashier.cs:65-88 | 5.00 owed with the note of 5.00 on the list is paid as 2.00, 2.00 and 1.00 |
| `CashierProperties.ChangeFailsExactly` | Estudos-Tests/Mutation/Estudos.Tests.Mutation/Cashier.cs:57-79 | For every unavailable list: the argument errors are exactly the non-positive arguments, and the loop fails exactly on a negative amount or one that is no multiple of the smallest available piece - or, when that piece is 10, 200 or 2000 with the next value two and a half times as large available, leaves over other than none, one or two of it after that next value |
| `CashierProperties.PayableIsPaidExactly` | Estudos-Tests/Mutation/Estudos.Tests.Mutation/Cashier.cs:57-79 | For every unavailable list that leaves something: every amount the available pieces could pay is paid if and only if the smallest of them divides all others |
| `CashierProperties.ThreeSmallestAreMissed` | Estudos-Tests/Mutation/Estudos.Tests.Mutation/Cashier.cs:63-74 | When it does not, three of the smallest piece make a payable amount the loop fails on |
| `CashierProperties.GreedyCanMissAPayableAmount` | Estudos-Tests/Mutation/Estudos.Tests.Mutation/Cashier.cs:63-74 | One such amount: without the two smallest coins the loop fails on 30 cents although three coins of 10 would pay it |
| `CashierOptimal.FewestPiecesExactly` | Estudos-Tests/Mutation/Estudos.Tests.Mutation/Cashier.cs:57-79 | For every unavailable list: whatever the available pieces can pay is paid, and with the fewest of them, if and only if 10 and 25 leave 5 available too, 200 and 500 leave 50 or 100, and 2000 and 5000 leave 500 or 1000 |
| `CashierOptimal.ThreeTwosAreCostly` | Estudos-Tests/Mutation/Estudos.Tests.Mutation/Cashier.cs:63-74 | Where that fails, three of 10, 200 or 2000 are an amount the loop fails on or pays with more than three pieces |
| `CashierOptimal.GreedyIsOptimal` | Estudos-Tests/Mutation/Estudos.Tests.Mutation/Cashier.cs:12-25 | With nothing unavailable no other choice of pieces from the drawer that pays the same amount is shorter than the change |
| `CashierCap.CapFiresExactly` | Estudos-Tests/Mutation/Estudos.Tests.Mutation/Cashier.cs:57-111 | For every unavailable list: the cap fires exactly on the amounts that can be paid and take more than fifty coins or more than fifty notes when divided by the available values in turn; change comes back exactly on those that take no more |
| `CashierCap.GreedyByDivision` | Estudos-Tests/Mutation/Estudos.Tests.Mutation/Cashier.cs:63-74 | Greedy change from any drawer holds of each type exactly the number of pieces the divisions give |
| `CashierCap.FullDrawerCap` | Estudos-Tests/Mutation/Estudos.Tests.Mutation/Cashier.cs:76-111 | With nothing unavailable the cap never fires for coins (at most nine), and fires exactly when the six divisions of the amount give more than fifty notes |
| `CashierCap.SmallestRejectedChange` | Estudos-Tests/Mutation/Estudos.Tests.Mutation/Cashier.cs:10-25 | 4589.00 is rejected and every smaller change is handed out |
| `CashierProperties.FullDrawerIsFull` | Estudos-Tests/Mutation/Estudos.Tests.Mutation/Cashier.cs:12-25 | The twelve literal pieces have the order and the face values the proofs assume of a full drawer: six coins, then six notes |
| `CashierProperties.GreedyIsExact` | Estudos-Tests/Mutation/Estudos.Tests.Mutation/Cashier.cs:63-74 | Greedy change from an ascending drawer is exact, non-increasing and from the drawer |
| `CashierCap.NotesAreDue` | Estudos-Tests/Mutation/Estudos.Tests.Mutation/Cashier.cs:63-74 | The number of notes greedy hands out is given by six divisions |
| `Denominations.OneMorePiece` | Estudos-Tests/Mutation/Estudos.Tests.Mutation/Cashier.cs:12-25 | Where every value is a multiple of the one before, or a five above a two with the one or its half below, one more piece in an amount costs at most one more piece in its greedy payment: the exchange argument |
| `Denominations.Carry` | Estudos-Tests/Mutation/Estudos.Tests.Mutation/Cashier.cs:12-25 | In such a system swapping a smaller piece for the larger one it carries past never costs a piece |
| `Denominations.PiecesIsMinimal` | Estudos-Tests/Mutation/Estudos.Tests.Mutation/Cashier.cs:12-25 | In such a system no choice of pieces is shorter than the greedy count for the amount it pays |
| `LunchBreak.PeriodList.FromTimes` | Estudos-Selenium/Estudos.Selenium/SeleniumTest.cs:22-29 | A flat list of times becomes one period for each pair, in order |
| `LunchBreak.PeriodList.TakeLunch` | Estudos-Selenium/Estudos.Selenium/SeleniumTest.cs:31-57 | The list in place becomes the day with its lunch interval: unchanged up to six hours of work, else split or pushed at the boundaries nearest noon |
| `LunchBreak.PeriodList.FindBoundaries` | Estudos-Selenium/Estudos.Selenium/SeleniumTest.cs:39-51 | One pass finds the first period whose start, and the first whose end, is nearest noon |
| `LunchBreak.PeriodList.SplitPeriod` | Estudos-Selenium/Estudos.Selenium/SeleniumTest.cs:70-77 | The period keeps its start, ends an hour before its middle, and a new period from the middle follows; the others are the same objects |
| `LunchBreak.PeriodList.PushPeriod` | Estudos-Selenium/Estudos.Selenium/SeleniumTest.cs:79-85 | Only the later period's start moves, and only when the gap is under an hour |
| `LunchBreak.PeriodList.WorkedTime` | Estudos-Selenium/Estudos.Selenium/SeleniumTest.cs:33 | The worked time is the sum of the periods' lengths |
| `LunchBreakProperties.NearestStartIsFirst` | Estudos-Selenium/Estudos.Selenium/SeleniumTest.cs:46-47 | No start is nearer noon than the chosen one, and an earlier one is strictly farther |
| `LunchBreakProperties.NearestEndIsFirst` | Estudos-Selenium/Estudos.Selenium/SeleniumTest.cs:49-50 | No end is nearer noon than the chosen one, and an earlier one is strictly farther |
| `LunchBreakProperties.BoundariesFaceEachOther` | Estudos-Selenium/Estudos.Selenium/SeleniumTest.cs:39-56 | In an ordered day the start nearest noon lies in the period of the end nearest noon or in the one right after it |
| `LunchBreakProperties.LunchTakesTheHour` | Estudos-Selenium/Estudos.Selenium/SeleniumTest.cs:31-85 | Beyond six hours there is a gap of the larger of one hour and the old gap at that place, every other boundary is kept, and the worked time drops by exactly what was not a gap before |
| `LunchBreakProperties.TheHourEndsAtTheMiddle` | Estudos-Selenium/Estudos.Selenium/SeleniumTest.cs:70-77 | When both nearest boundaries lie in one period, its second half starts at its middle to within half a tick, an odd length rounded so that this half is even, and its first half ends an hour before |
| `LunchBreakProperties.NearestNoon` | Estudos-Selenium/Estudos.Selenium/SeleniumTest.cs:36-51 | The boundaries chosen are the first ones nearest 12:00, in ticks |
| `LunchScenarios.OnePeriodDays` | Estudos-Selenium/Estudos.Selenium/SeleniumTest.cs:94-102 | The one-period days of the original's scenarios, from 08:00-17:00 to 05:00-12:00, come out as listed there |
| `LunchScenarios.FourPeriods` | Estudos-Selenium/Estudos.Selenium/SeleniumTest.cs:90 | The scenario of four periods comes out as listed there |
| `LunchScenarios.ThreePeriods` | Estudos-Selenium/Estudos.Selenium/SeleniumTest.cs:91 | The scenario of three periods comes out as listed there |
| `LunchScenarios.LongBreakAlready` | Estudos-Selenium/Estudos.Selenium/SeleniumTest.cs:92 | The scenario with a long break at noon is left as it is |
| `LunchScenarios.ShortBreak` | Estudos-Selenium/Estudos.Selenium/SeleniumTest.cs:93 | The scenario with twenty minutes at noon comes out as listed there |
| `LunchBreakProperties.StaysOrderedExactlyWithRoom` | Estudos-Selenium/Estudos.Selenium/SeleniumTest.cs:70-85 | The day stays an ordered list of non-empty periods if and only if the hour has room in half the split period, or before the end of the pushed one |
| `LunchBreakProperties.ShortPeriodRunsBackwards` | Estudos-Selenium/Estudos.Selenium/SeleniumTest.cs:79-85 | A concrete day on which the push moves a short period's start past its own end |
| `CircularBuffer.Create` | Estudos.Algoritmos/CircularBuffer/EntryCircularBufferDt.cs:23-41 | The three argument errors in their order; otherwise the items in the first slots and nothing in the rest |
| `CircularBuffer.EntryCircularBuffer.constructor` | Estudos.Algoritmos/CircularBuffer/EntryCircularBufferDt.cs:34-41 | The items fill the first slots as they are, and the cursor starts at the number of items that are not null |
| `CircularBuffer.EntryCircularBuffer.AddOrUpdate` | Estudos.Algoritmos/CircularBuffer/EntryCircularBufferDt.cs:72-85 | Updates the first slot holding the key in place, or overwrites the slot at the cursor and advances it; the cursor stays within 0..capacity, and distinct keys stay distinct |
| `CircularBuffer.EntryCircularBuffer.AddItem` | Estudos.Algoritmos/CircularBuffer/EntryCircularBufferDt.cs:106-113 | Overwrites the slot at the wrapped cursor whatever it holds, and moves the cursor behind it |
| `CircularBuffer.EntryCircularBuffer.Remove` | Estudos.Algoritmos/CircularBuffer/EntryCircularBufferDt.cs:87-98 | Empties the first slot holding the key and leaves cursor and other slots alone |
| `CircularBuffer.EntryCircularBuffer.Find` | Estudos.Algoritmos/CircularBuffer/EntryCircularBufferDt.cs:102 | The index of the first slot holding the key, or -1 when none does |
| `CircularBuffer.EntryCircularBuffer.Contains` | Estudos.Algoritmos/CircularBuffer/EntryCircularBufferDt.cs:63-70 | True exactly when the keyed store the ring stands for has the key |
| `CircularBuffer.EntryCircularBuffer.GetEntry` | Estudos.Algoritmos/CircularBuffer/EntryCircularBufferDt.cs:52-59 | The entry the keyed store has under the key, or the empty entry when it has none |
| `CircularBuffer.EntryCircularBuffer.IsEmpty` | Estudos.Algoritmos/CircularBuffer/EntryCircularBufferDt.cs:48 | True exactly when the keyed store has no key but the empty one |
| `CircularBuffer.SlotsHoldTheStore` | Estudos.Algoritmos/CircularBuffer/EntryCircularBufferDt.cs:102 | What the search finds in the slots is what the keyed store has, key by key and value by value |
| `CircularBufferProperties.RingRefinesQueue` | Estudos.Algoritmos/CircularBuffer/EntryCircularBufferDt.cs:72-113 | Slots and cursor refine a queue of slots in overwriting order: a known key is updated in its place, a new one drops the front and goes to the back, a removal leaves a hole |
| `CircularBufferProperties.QueueRefinesStore` | Estudos.Algoritmos/CircularBuffer/EntryCircularBufferDt.cs:52-113 | The queue refines a bounded keyed store: latest value for each live key, and an insertion evicts exactly what the oldest slot holds |
| `CircularBufferProperties.EntryMovesForward` | Estudos.Algoritmos/CircularBuffer/EntryCircularBufferDt.cs:72-113 | An entry moves forward by exactly the number of insertions of new keys; updates and removals of other keys do not move it |
| `CircularBufferProperties.RunOnQueue` | Estudos.Algoritmos/CircularBuffer/EntryCircularBufferDt.cs:72-113 | Every run of operations on slots and cursor is the run on the queue, with the same insertions |
| `CircularBufferProperties.Window` | Estudos.Algoritmos/CircularBuffer/EntryCircularBufferDt.cs:72-113 | In every run on the ring a newly inserted entry that is not removed is found with its latest value through the next N-1 insertions of new keys |
| `CircularBufferProperties.WindowCloses` | Estudos.Algoritmos/CircularBuffer/EntryCircularBufferDt.cs:106-113 | The N-th insertion of a new key overwrites it in the ring |
| `CircularBufferProperties.ItemsOutliveTheFreeSlots` | Estudos.Algoritmos/CircularBuffer/EntryCircularBufferDt.cs:34-41 | Built from distinct items, none null, the ring fills its f free slots first: the i-th item is found with its latest value through f + i insertions of new keys |
| `CircularBufferProperties.ItemsAreOverwrittenInOrder` | Estudos.Algoritmos/CircularBuffer/EntryCircularBufferDt.cs:106-113 | The next insertion of a new key overwrites it |
| `CircularBufferProperties.IsEmptyOverlooksTheEmptyKey` | Estudos.Algoritmos/CircularBuffer/EntryCircularBufferDt.cs:48 | The buffer reports empty exactly when its store holds no key but the empty one, which may still be there |
| `IdempotentConsumer.Consumer.ProcessAsync` | Estudos-IdempotentConsumer/Estudos.IdempotentConsumer/Base/IdempotentConsumer.cs:18-80 | The reservation, the marking, the message, the commit and the rollback with a failure at any point: the outcome, whether the message ran and the repository left behind are those of the specified call |
| `IdempotentConsumer.Consumer.Exists` | Estudos-IdempotentConsumer/Estudos.IdempotentConsumer/Strategies/Repository/RepositoryMembershipStrategy.cs:18-25 | A found key changes nothing; a key not found is reserved, or the reservation throws before or after reaching the table |
| `IdempotentConsumer.SqlServerRepository.Contains` | Estudos-IdempotentConsumer/Estudos.IdempotentConsumer/Repositories/Slq/SqlServerRepository.cs:58-61 | The memory is asked first, the table only when the memory does not know the key |
| `IdempotentConsumer.SqlServerRepository.AddOrUpdate` | Estudos-IdempotentConsumer/Estudos.IdempotentConsumer/Repositories/Slq/SqlServerRepository.cs:85-104 | Memory is written before the table, so a table command that throws early leaves the two apart |
| `IdempotentConsumer.SqlServerRepository.Remove` | Estudos-IdempotentConsumer/Estudos.IdempotentConsumer/Repositories/Slq/SqlServerRepository.cs:106-115 | The key leaves memory, and the table unless its command throws before taking effect |
| `IdempotentConsumerProperties.ConsumedAtMostOnce` | Estudos-IdempotentConsumer/Estudos.IdempotentConsumer/Base/IdempotentConsumer.cs:18-54 | In any sequential run with any faults: after a call that reported Consumed, no later call with the key runs the message or reports Consumed; it is Ignored unless the lookup query throws |
| `IdempotentConsumerProperties.KnownKeyNeverRuns` | Estudos-IdempotentConsumer/Estudos.IdempotentConsumer/Base/IdempotentConsumer.cs:20-21 | A key in the table is turned away for the rest of every run, whatever other calls do |
| `IdempotentConsumerProperties.FailureLeavesKeyFreeExactly` | Estudos-IdempotentConsumer/Estudos.IdempotentConsumer/Base/IdempotentConsumer.cs:30-34 | A failed call leaves a free key free if and only if the lookup threw, or the reservation succeeded and the rollback took effect; a reservation that throws is outside the try block and is never rolled back |
| `IdempotentConsumerProperties.FreeKeyIsConsumed` | Estudos-IdempotentConsumer/Estudos.IdempotentConsumer/Base/IdempotentConsumer.cs:23-29 | Without faults a free key is run, and consumed when the message returns |
| `IdempotentConsumerProperties.ConsumedExactly` | Estudos-IdempotentConsumer/Estudos.IdempotentConsumer/Base/IdempotentConsumer.cs:18-34 | A call runs the message if and only if the key is free and neither the lookup, the reservation nor the marking fails, and reports its result as consumed if and only if the message and the commit do not fail either; a call that is turned away changes nothing |
| `IdempotentConsumerProperties.RowLeftBehind` | Estudos-IdempotentConsumer/Estudos.IdempotentConsumer/Base/IdempotentConsumer.cs:23-80 | The row left in the table after every combination of failures: Committed when consumed, none after a rollback that took effect, otherwise the last of Reserved, Processing and Committed that reached the table |
| `IdempotentConsumerProperties.ConsumedIsCommittedInMemory` | Estudos-IdempotentConsumer/Estudos.IdempotentConsumer/Strategies/Repository/RepositoryMembershipStrategy.cs:27-38 | The memory holds a consumed key as Committed, with the time of the call |
| `IdempotentConsumerProperties.StuckKeyIsLost` | Estudos-IdempotentConsumer/Estudos.IdempotentConsumer/Base/IdempotentConsumer.cs:20-34 | A failure that leaves its row behind loses the message: no later call runs it, although it was never consumed |
| `IdempotentConsumerProperties.CoherenceBreaksExactly` | Estudos-IdempotentConsumer/Estudos.IdempotentConsumer/Repositories/Slq/SqlServerRepository.cs:85-115 | One call keeps memory within the table if and only if its reservation does not throw before reaching the table |
| `IdempotentConsumerProperties.RememberStep` | Estudos-IdempotentConsumer/Estudos.IdempotentConsumer/Repositories/CircularBuffer/InMemoryCircularBufferRepository.cs:29-42 | Remembering a key adds that key only, within its own instance's ring |
| `IdempotentConsumerProperties.ForgetStep` | Estudos-IdempotentConsumer/Estudos.IdempotentConsumer/Repositories/CircularBuffer/InMemoryCircularBufferRepository.cs:44-55 | Forgetting removes the key and adds none, also when the emptied ring is thrown away |
| `IdempotencyWindow.AtMostOnceWithinTheWindow` | Estudos-IdempotentConsumer/Estudos.IdempotentConsumer/Repositories/CircularBuffer/InMemoryCircularBufferRepository.cs:27-55 | On the in-memory repository alone a consumed key, the empty one included, is turned away as long as fewer than N new keys of its instance were reserved and no rollback dropped it |
| `IdempotencyWindow.OnlyTheEmptyKeyIsDropped` | Estudos-IdempotentConsumer/Estudos.IdempotentConsumer/Repositories/CircularBuffer/InMemoryCircularBufferRepository.cs:51-52 | No rollback ever drops a key other than the empty one |
| `IdempotencyWindow.DeliverForgetsExactly` | Estudos-IdempotentConsumer/Estudos.IdempotentConsumer/Repositories/CircularBuffer/InMemoryCircularBufferRepository.cs:29-55 | One call makes the memory forget a key if and only if it reserves a new key over it, or fails and leaves nothing but the empty key in its ring |
| `IdempotencyWindow.ConsumedAgainExactly` | Estudos-IdempotentConsumer/Estudos.IdempotentConsumer/Repositories/CircularBuffer/InMemoryCircularBufferRepository.cs:27-55 | The call after which a consumed key can be consumed again is exactly the one that makes the N-th reservation of a new key, or the first whose rollback drops the key |
| `IdempotencyWindow.EmptyKeyIsConsumedTwice` | Estudos-IdempotentConsumer/Estudos.IdempotentConsumer/Repositories/CircularBuffer/InMemoryCircularBufferRepository.cs:51-52 | From an empty repository of any size: the empty key is consumed, another message of its instance fails, and the empty key is consumed again |
| `Blockchain.BlockObject.Mine` | Estudos-Blockchain/Estudos.Blockchain.Console/Block.cs:37-49 | Leaves a block whose hash already has the zero prefix as it is; on any other finds the first nonce past its own whose hash has the prefix, and changes nothing but nonce and hash |
| `Blockchain.BlockObject.CalculateHash` | Estudos-Blockchain/Estudos.Blockchain.Console/Block.cs:27-35 | The hash does not depend on the block's stored hash |
| `Blockchain.BlockchainObject.InitializeChain` | Estudos-Blockchain/Estudos.Blockchain.Console/Blockchain.cs:15-32 | One mined genesis block with what was pending, and a new pending list no block holds |
| `Blockchain.BlockchainObject.CreateGenesisBlock` | Estudos-Blockchain/Estudos.Blockchain.Console/Blockchain.cs:21-27 | The genesis block keeps the pending list object itself, which the chain then gives up |
| `Blockchain.BlockchainObject.CreateTransaction` | Estudos-Blockchain/Estudos.Blockchain.Console/Blockchain.cs:39-42 | Appends to the open list and changes no block, because no block holds that list |
| `Blockchain.BlockchainObject.ProcessPendingTransactions` | Estudos-Blockchain/Estudos.Blockchain.Console/Blockchain.cs:44-51 | Appends one mined block with what was pending and leaves only the reward pending, in a list no block holds |
| `Blockchain.BlockchainObject.AddBlock` | Estudos-Blockchain/Estudos.Blockchain.Console/Blockchain.cs:53-61 | A block of any origin takes the next index and the last hash, is mined unless its hash already has the prefix, and is appended; no other block changes |
| `LedgerProperties.AddedBlockIsValidExactly` | Estudos-Blockchain/Estudos.Blockchain.Console/Blockchain.cs:53-76 | Adding a block keeps the chain valid if and only if it came without a zero-prefixed hash, or that hash is its own once it is linked |
| `Blockchain.BlockchainObject.CheckValid` | Estudos-Blockchain/Estudos.Blockchain.Console/Blockchain.cs:63-76 | The loop accepts exactly when every block after the first carries its own hash and the hash of the one before |
| `Blockchain.BlockchainObject.GetBalance` | Estudos-Blockchain/Estudos.Blockchain.Console/Blockchain.cs:78-93 | The nested loops give what the chain's transactions pay to an address less what they take from it |
| `LedgerProperties.StepKeepsSound` | Estudos-Blockchain/Estudos.Blockchain.Console/Blockchain.cs:39-61 | Creating a transaction or mining keeps every block valid, at its index and with a zero-prefixed hash |
| `LedgerProperties.EveryStateIsSound` | Estudos-Blockchain/Estudos.Blockchain.Console/Blockchain.cs:15-76 | In every state of every run from InitializeChain on the chain is valid, each Index is its position and each hash has the zero prefix |
| `LedgerProperties.EveryHashHasZeros` | Estudos-Blockchain/Estudos.Blockchain.Console/Blockchain.cs:15-61 | In every state of every run each hash starts with as many zeros as the difficulty asks for |
| `LedgerProperties.MiningFindsTheFirst` | Estudos-Blockchain/Estudos.Blockchain.Console/Block.cs:37-49 | Mining leaves a block whose hash starts with the zeros alone, and gives any other the first nonce past its own whose digest does |
| `LedgerHistory.History` | Estudos-Blockchain/Estudos.Blockchain.Console/Blockchain.cs:15-51 | In every run the blocks one after the other and then the pending list hold exactly what was pending at the start, every created transaction and one reward for each mining to its miner, in that order; each mining adds one block |
| `LedgerHistory.NothingIsLost` | Estudos-Blockchain/Estudos.Blockchain.Console/Blockchain.cs:15-51 | As multisets: no transaction is lost, repeated or made up |
| `LedgerHistory.PendingSinceTheLastMining` | Estudos-Blockchain/Estudos.Blockchain.Console/Blockchain.cs:39-51 | Pending is the reward of the last mining and what was created since |
| `LedgerHistory.BalanceOfARun` | Estudos-Blockchain/Estudos.Blockchain.Console/Blockchain.cs:78-93 | A balance is what everything that came in moves to the address, less what is still pending |
| `LedgerHistory.TransferIsCounted` | Estudos-Blockchain/Estudos.Blockchain.Console/Blockchain.cs:39-93 | A transaction created and mined takes its amount from the sender and gives it to the receiver |
| `LedgerProperties.ChainsOnlyGrow` | Estudos-Blockchain/Estudos.Blockchain.Console/Blockchain.cs:39-61 | A mined block never changes again: every later chain of a run extends every earlier one |
| `LedgerProperties.BalancesCancel` | Estudos-Blockchain/Estudos.Blockchain.Console/Blockchain.cs:78-93 | Over any chain the balances of all addresses it mentions, null included, sum to zero |
| `LedgerProperties.NetworkPays` | Estudos-Blockchain/Estudos.Blockchain.Console/Blockchain.cs:44-51 | After k minings the null address has paid k-1 rewards and one more is pending |
| `LedgerProperties.SupplyIsOneRewardBehind` | Estudos-Blockchain/Estudos.Blockchain.Console/Blockchain.cs:44-93 | After k >= 1 minings of a ledger that receives no chain the balances of everybody but null total Reward*(k-1) |
| `TamperEvidence.TextTellsPreviousHash` | Estudos-Blockchain/Estudos.Blockchain.Console/Block.cs:31 | The hashed text can be read in one way only: time stamp, previous hash, rest |
| `TamperEvidence.SameHashSamePrevious` | Estudos-Blockchain/Estudos.Blockchain.Console/Block.cs:27-35 | Without a collision two blocks with equal hashes hashed equal texts and name the same previous hash |
| `TamperEvidence.LastHashPinsTheChain` | Estudos-Blockchain/Estudos.Blockchain.Console/Blockchain.cs:63-76 | Two valid chains of one length with the same last hash have the same hash and hashed the same text at every position from 1 on, whatever their genesis blocks are |
| `TamperEvidence.LastHashPinsTheGenesis` | Estudos-Blockchain/Estudos.Blockchain.Console/Blockchain.cs:63-76 | Their genesis blocks carry the same hash when both hashes look like digests, which nothing checks |
| `TamperEvidence.GenesisIsPinnedExactly` | Estudos-Blockchain/Estudos.Blockchain.Console/Blockchain.cs:63-76 | When one of the two genesis hashes looks like a digest, they are the same if and only if the other does too |
| `TamperEvidence.GenesisHashCanChange` | Estudos-Blockchain/Estudos.Blockchain.Console/Block.cs:27-35 | Any text that reads the same in ASCII can take the place of the genesis hash, in the genesis block and in the next one, under unchanged hashes |
| `TamperEvidence.TwoGenesisHashes` | Estudos-Blockchain/Estudos.Blockchain.Console/Block.cs:27-35 | Whatever the format: two valid chains with the same last hash whose genesis hashes are a question mark and any one character outside ASCII |
| `TamperEvidence.ReplacedBlockPassesExactly` | Estudos-Blockchain/Estudos.Blockchain.Console/Blockchain.cs:63-76 | Replacing a block under its old hashes passes IsValid if and only if the text to be hashed has not changed or collides with the old one |
| `TamperEvidence.ProtectedExactly` | Estudos-Blockchain/Estudos.Blockchain.Console/Block.cs:27-35 | Short of a collision it passes if and only if the printed time stamp, and the printed transactions and nonce together, read the same in ASCII |
| `TamperEvidence.UnprotectedChanges` | Estudos-Blockchain/Estudos.Blockchain.Console/Block.cs:31 | The index, and any character outside ASCII in a transaction, can be changed without IsValid noticing |
| `TamperEvidence.GenesisPassesExactly` | Estudos-Blockchain/Estudos.Blockchain.Console/Blockchain.cs:65-73 | Any genesis block passes if and only if it carries the old genesis hash |
| `PeerSync.Node.Receive` | Estudos-Blockchain/Estudos.Blockchain.Console/P2PServer.cs:32-40 | A received chain is adopted exactly when it is valid and strictly longer, with the received pending transactions before the local ones; otherwise nothing changes |
| `PeerSync.P2PServer.OnMessage` | Estudos-Blockchain/Estudos.Blockchain.Console/P2PServer.cs:21-48 | A greeting is answered; a chain is received, and answered with the node's chain the first time only |
| `PeerSync.P2PClient.Connect` | Estudos-Blockchain/Estudos.Blockchain.Console/P2PClient.cs:11-41 | A new url is sent a greeting and the node's chain; a known one is left alone |
| `PeerSync.P2PClient.OnMessage` | Estudos-Blockchain/Estudos.Blockchain.Console/P2PClient.cs:16-35 | A chain is received by the same adoption rule; a greeting changes nothing |
| `PeerSync.Deserialize` | Estudos-Blockchain/Estudos.Blockchain.Console/P2PServer.cs:30 | The received chain is rebuilt from objects of its own, none shared with the receiver |
| `PeerForgery.OnlyValidChainsAreAdopted` | Estudos-Blockchain/Estudos.Blockchain.Console/P2PServer.cs:32-40 | Whatever ledger is received: a valid chain stays valid, an invalid or no longer one changes nothing, and a valid longer one is adopted with both pending lists |
| `PeerForgery.EveryChainStaysValid` | Estudos-Blockchain/Estudos.Blockchain.Console/P2PClient.cs:16-38 | In every run in which anybody may replace the messages on their way by any others at any time, every node's chain stays valid and never gets shorter |
| `PeerNetwork.EveryNodeStaysSound` | Estudos-Blockchain/Estudos.Blockchain.Console/P2PServer.cs:21-48 | In every run of nodes that mine, connect, broadcast and receive, every chain held or under way is sound, and no node ever goes back to a shorter chain |
| `PeerNetwork.AdoptionForgetsLocalBlocks` | Estudos-Blockchain/Estudos.Blockchain.Console/P2PServer.cs:32-40 | After an adoption the copies of a transaction are those in the shared blocks, in the sender's further blocks and in both pending lists; the receiver's further blocks are forgotten |
| `PeerNetwork.AdoptionDuplicates` | Estudos-Blockchain/Estudos.Blockchain.Console/P2PServer.cs:32-40 | An adoption adds the receiver's pending copies of a transaction to all the sender knows of; the receiver's copies stay the same if and only if the sender knew of as many as the receiver's chain records |
| `PeerRewards.RewardPaidTwice` | Estudos-Blockchain/Estudos.Blockchain.Console/P2PServer.cs:32-40 | In every run of ten events in which two nodes mine in turn and adopt each other's chains: three minings and four blocks put three rewards on the chain, the first miner's twice |
| `PeerRewards.ExchangeHappens` | Estudos-Blockchain/Estudos.Blockchain.Console/P2PClient.cs:11-41 | Between any two nodes such a run exists when the difficulty is 0 |
| `PeerNetwork.HandshakeAgrees` | Estudos-Blockchain/Estudos.Blockchain.Console/P2PClient.cs:16-38 | A handshake with nothing in between leaves both peers at the larger of their two lengths, with the same chain if one was longer, and with nothing left on the way |
| `PeerNetwork.HandshakeCatchesUp` | Estudos-Blockchain/Estudos.Blockchain.Console/P2PClient.cs:16-38 | With anything mined, broadcast and received in between: where the handshake stands after its own events |
| `PeerNetwork.HandshakeDone` | Estudos-Blockchain/Estudos.Blockchain.Console/P2PClient.cs:16-38 | Once both messages and both replies are in, both chains are at least as long as the longer one was at the connection |
| `PeerNetwork.EveryHandshakeIsDone` | Estudos-Blockchain/Estudos.Blockchain.Console/P2PClient.cs:11-38 | The same of every connection in every run from initialised nodes on |
| `PeerNetwork.SynchedAreConnected` | Estudos-Blockchain/Estudos.Blockchain.Console/P2PServer.cs:15-47 | In every such run a session that has been sent the chain is one that was connected, so a new one has not been sent it |
| `EventFrames.GetFieldBytes` | Estudos-SSE/Estudos.SSE.Core/Helpers/SseEventHelper.cs:90-103 | Writes prefix, UTF-8 bytes and CR LF at the given place, nothing before or after, and returns the place behind them |
| `EventFrames.GetEventBytes` | Estudos-SSE/Estudos.SSE.Core/Helpers/SseEventHelper.cs:56-73 | The buffer holds the id line when the id is not blank, the event line, the data line and the blank line, and zeros up to the size reserved |
| `EventFrames.GetTextBytes` | Estudos-SSE/Estudos.SSE.Core/Helpers/SseEventHelper.cs:45-54 | The buffer holds one data line and the blank line, within its size |
| `EventFrames.GetCommentBytes` | Estudos-SSE/Estudos.SSE.Core/Helpers/SseEventHelper.cs:34-43 | The buffer holds one comment line and the blank line, within its size |
| `EventFrames.GetReconnectIntervalBytes` | Estudos-SSE/Estudos.SSE.Core/Helpers/SseEventHelper.cs:21-32 | The buffer holds the retry line in decimal and the blank line, within its size |
| `EventFrames.FieldFits` | Estudos-SSE/Estudos.SSE.Core/Helpers/SseEventHelper.cs:105-108 | For every UTF-16 text, lone surrogates included, a field needs no more than its maximal count |
| `EventFrames.EventFits` | Estudos-SSE/Estudos.SSE.Core/Helpers/SseEventHelper.cs:75-88 | A whole event needs no more than the total reserved for it |
| `EventOnTheWire.EventInBytes` | Estudos-SSE/Estudos.SSE.Core/Helpers/SseEventHelper.cs:56-108 | An event byte by byte: the id line if and only if the id has something in it besides white space, the event line, the data line and the empty line; and the size of its buffer |
| `EventOnTheWire.FramesInBytes` | Estudos-SSE/Estudos.SSE.Core/Helpers/SseEventHelper.cs:21-54 | The text, comment and retry frames byte by byte, and the sizes of their buffers |
| `EventOnTheWire.NoLeadingZero` | Estudos-SSE/Estudos.SSE.Core/Helpers/SseEventHelper.cs:23 | The interval is written without leading zeros |
| `Characters.WhiteSpaceExactly` | Estudos-SSE/Estudos.SSE.Core/Helpers/SseEventHelper.cs:61 | The 25 code points that count as white space |
| `Utf8.EncodeFits` | Estudos-SSE/Estudos.SSE.Core/Helpers/SseEventHelper.cs:107 | The UTF-8 bytes of n code units are at most 3n, within the reserved 3(n+1) |
| `Utf8.EncodeScalar` | Estudos-SSE/Estudos.SSE.Core/Helpers/SseEventHelper.cs:97 | One to four bytes; characters from 128 on never produce a byte below 128, so never CR or LF |
| `EventOnTheWire.ScalarExamples` | Estudos-SSE/Estudos.SSE.Core/Helpers/SseEventHelper.cs:97 | The examples of section 7 of RFC 3629 |
| `EventOnTheWire.StumpOfATree` | Estudos-SSE/Estudos.SSE.Core/Helpers/SseEventHelper.cs:97 | Two units for a character outside the basic plane are its four bytes |
| `EventOnTheWire.AloneIsReplaced` | Estudos-SSE/Estudos.SSE.Core/Helpers/SseEventHelper.cs:97 | A surrogate that stands alone is the three bytes of the replacement character |
| `Utf8.DecodeEncoded` | Estudos-SSE/Estudos.SSE.Core/Helpers/SseEventHelper.cs:97 | Decoding undoes encoding, also in front of more bytes |
| `Utf8.TextOfScalars` | Estudos-SSE/Estudos.SSE.Core/Helpers/SseEventHelper.cs:97 | A text is recovered from its scalar values if and only if no surrogate in it stands alone |
| `EventRoundTrip.StreamIsText` | Estudos-SSE/Estudos.SSE.Core/Helpers/SseEventHelper.cs:21-73 | Any frames one after the other are decodable and are read as the text of their lines |
| `EventRoundTrip.StreamRoundTrip` | Estudos-SSE/Estudos.SSE.Core/Helpers/SseEventHelper.cs:21-73 | Any frames without a line end in their fields are read back by a conforming reader one by one: names, data, ids and reconnection times |
| `EventOnTheWire.IdComesBack` | Estudos-SSE/Estudos.SSE.Core/Helpers/SseEventHelper.cs:61-64 | An id with something in it besides white space, one line without a null character, comes back with its event |
| `EventOnTheWire.StockTicker` | Estudos-SSE/Estudos.SSE.Core/Helpers/SseEventHelper.cs:67 | The reader on an example of section 9.2.6 of the WHATWG HTML Living Standard: three data lines are one event |
| `EventOnTheWire.BareDataLines` | Estudos-SSE/Estudos.SSE.Core/Helpers/SseEventHelper.cs:67 | And on another: two data lines without a value are an event with a line feed |
| `EventExactness.BrokenDataIsNotRead` | Estudos-SSE/Estudos.SSE.Core/Helpers/SseEventHelper.cs:67 | Data with a line end in it never comes back whole from the line it was written to |
| `EventExactness.TypesAreClean` | Estudos-SSE/Estudos.SSE.Core/Helpers/SseEventHelper.cs:66 | No reading of any text yields an event name with a line end in it |
| `EventExactness.ReadSplits` | Estudos-SSE/Estudos.SSE.Core/Helpers/SseEventHelper.cs:61-70 | A text that ends with a line end is read first and the rest by the reader it leaves |
| `EventExactness.ReadsBackExactly` | Estudos-SSE/Estudos.SSE.Core/Helpers/SseEventHelper.cs:56-73 | Unless the id lines leave data behind and the data of a properly named event has a line end (`IdDecides`), an event reads back with its name and data if and only if its id lines neither dispatch an event nor leave data behind, it has a name, neither name nor data has a line end, and both are well-formed text |
| `EventExactness.OneLineIdIsHarmless` | Estudos-SSE/Estudos.SSE.Core/Helpers/SseEventHelper.cs:61-64 | Every one-line id, and every blank one, meets the condition on ids |
| `EventExactness.DataInTheIdReadsBack` | Estudos-SSE/Estudos.SSE.Core/Helpers/SseEventHelper.cs:61-67 | The family left out is not empty: an id with a data line in it can stand in for what two-line data loses |
| `ConfigurationParser.Parser.Parse` | Estudos-RemoteJsonFile/Estudos.RemoteConfigurationProvider/Helpers/ParseHelper.cs:29-41 | The dictionary, or the error, is that of acting on the flattened document in order; the stack ends empty |
| `ConfigurationParser.Parser.VisitObject` | Estudos-RemoteJsonFile/Estudos.RemoteConfigurationProvider/Helpers/ParseHelper.cs:43-51 | Refines the flattening of an object's members under the current stack and restores stack and cached path |
| `ConfigurationParser.Parser.VisitToken` | Estudos-RemoteJsonFile/Estudos.RemoteConfigurationProvider/Helpers/ParseHelper.cs:58-83 | Refines the flattening of any token and restores stack and cached path; an unsupported type is an error |
| `ConfigurationParser.Parser.VisitArray` | Estudos-RemoteJsonFile/Estudos.RemoteConfigurationProvider/Helpers/ParseHelper.cs:85-93 | Refines the flattening of items under their decimal indices and restores stack and cached path |
| `ConfigurationParser.Parser.VisitPrimitive` | Estudos-RemoteJsonFile/Estudos.RemoteConfigurationProvider/Helpers/ParseHelper.cs:95-105 | Adds one entry under the cached path, or reports it a duplicate ignoring case |
| `ConfigurationParser.Parser.EnterContext` | Estudos-RemoteJsonFile/Estudos.RemoteConfigurationProvider/Helpers/ParseHelper.cs:107-111 | Pushes a name and keeps the cached path in step with the stack |
| `ConfigurationParser.Parser.ExitContext` | Estudos-RemoteJsonFile/Estudos.RemoteConfigurationProvider/Helpers/ParseHelper.cs:113-117 | Pops a name and keeps the cached path in step with the stack |
| `ConfigurationProperties.AddAllExactly` | Estudos-RemoteJsonFile/Estudos.RemoteConfigurationProvider/Helpers/ParseHelper.cs:95-105 | After any prefix of the walk: filled if and only if the prefix has supported tokens and distinct keys, and then holding exactly its leaves |
| `ConfigurationProperties.ParsesExactly` | Estudos-RemoteJsonFile/Estudos.RemoteConfigurationProvider/Helpers/ParseHelper.cs:43-105 | A document parses if and only if every token is supported and no two joined leaf paths are equal ignoring case; the dictionary then has one entry for each leaf |
| `ConfigurationAnswer.ParsedHoldsWhatIsReached` | Estudos-RemoteJsonFile/Estudos.RemoteConfigurationProvider/Helpers/ParseHelper.cs:43-105 | Following member names and decimal indices through a document that parses, only values of the seven types are reached, and the dictionary holds exactly their texts under the joined paths |
| `ConfigurationAnswer.OtherTypesAreRefused` | Estudos-RemoteJsonFile/Estudos.RemoteConfigurationProvider/Helpers/ParseHelper.cs:80-82 | A document in which a value of another type is reached does not parse |
| `ConfigurationAnswer.FormatErrorMeansOtherType` | Estudos-RemoteJsonFile/Estudos.RemoteConfigurationProvider/Helpers/ParseHelper.cs:80-82 | The format error is only reported when such a value is reached |
| `ConfigurationAnswer.DuplicateIsReached` | Estudos-RemoteJsonFile/Estudos.RemoteConfigurationProvider/Helpers/ParseHelper.cs:99-102 | A duplicate is only reported of the joined path of a value of the seven types |
| `ConfigurationAnswer.TidyDocumentExactly` | Estudos-RemoteJsonFile/Estudos.RemoteConfigurationProvider/Helpers/ParseHelper.cs:43-105 | With colon-free names that are distinct among siblings ignoring case: the format error if and only if a value of another type is reached |
| `ConfigurationAnswer.FirstMembersDecide` | Estudos-RemoteJsonFile/Estudos.RemoteConfigurationProvider/Helpers/ParseHelper.cs:43-51 | Members are visited in document order: a failure among the first of them is the document's |
| `ConfigurationAnswer.FirstItemsDecide` | Estudos-RemoteJsonFile/Estudos.RemoteConfigurationProvider/Helpers/ParseHelper.cs:85-93 | And so are the items of an array |
| `ConfigurationAnswer.NumeralIsDecimal` | Estudos-RemoteJsonFile/Estudos.RemoteConfigurationProvider/Helpers/ParseHelper.cs:89 | An array index is its decimal numeral without leading zeros |
| `ConfigurationAnswer.ValueIsVisited` | Estudos-RemoteJsonFile/Estudos.RemoteConfigurationProvider/Helpers/ParseHelper.cs:70-82 | A value of one of the seven types is one entry to the walk, any other value an error |
| `ConfigurationAnswer.PortIsStored` | Estudos-RemoteJsonFile/Estudos.RemoteConfigurationProvider/Helpers/ParseHelper.cs:70-82 | A document with one integer member holds its text under the name, and one with a date is a format error |
| `ConfigurationProperties.FirstFailureIsReported` | Estudos-RemoteJsonFile/Estudos.RemoteConfigurationProvider/Helpers/ParseHelper.cs:80-102 | The error is that of the first visit that breaks it |
| `ConfigurationProperties.JoinIsInjective` | Estudos-RemoteJsonFile/Estudos.RemoteConfigurationProvider/Helpers/ParseHelper.cs:110 | Paths of names without a colon can be read off the joined key |
| `ConfigurationProperties.TidyNamesNeverCollide` | Estudos-RemoteJsonFile/Estudos.RemoteConfigurationProvider/Helpers/ParseHelper.cs:43-105 | Names without colons, distinct among siblings ignoring case, never raise "Duplicate key": the document parses if and only if every token is supported, and its only error is the unsupported token |
| `ConfigurationProperties.ColonCollides` | Estudos-RemoteJsonFile/Estudos.RemoteConfigurationProvider/Helpers/ParseHelper.cs:99-102 | A colon in a name can collide with nesting |
| `ShortGuid.Base64RoundTrip` | Estudos-ShortGuids/Estudos.ShortGuids/ShortGuid.cs:17 | Decoding undoes encoding, whatever the number of bytes |
| `ShortGuidAnswer.DigitsInOrder` | Estudos-ShortGuids/Estudos.ShortGuids/ShortGuid.cs:17 | The alphabet of Table 1 of RFC 4648 |
| `ShortGuidAnswer.OneToThreeBytes` | Estudos-ShortGuids/Estudos.ShortGuids/ShortGuid.cs:17 | The first examples of section 10 of RFC 4648 |
| `ShortGuidAnswer.FourToSixBytes` | Estudos-ShortGuids/Estudos.ShortGuids/ShortGuid.cs:17 | The others |
| `ShortGuid.SextetsOfBytes` | Estudos-ShortGuids/Estudos.ShortGuids/ShortGuid.cs:39-40 | The digits come back from their bytes if and only if the last one drops no bits |
| `ShortGuid.PrintThenParse` | Estudos-ShortGuids/Estudos.ShortGuids/ShortGuid.cs:8-41 | A non-empty Guid prints as 22 URL-safe characters, and parsing them gives the same short Guid |
| `ShortGuidAnswer.PrintedDigitByDigit` | Estudos-ShortGuids/Estudos.ShortGuids/ShortGuid.cs:17-20 | The printed form is the first 22 digits of the encoding with plus as a dash and slash as an underscore |
| `ShortGuidAnswer.TestGuidPrints` | Estudos-ShortGuids/Estudos.ShortGuids/ShortGuid.cs:17-23 | The Guid of the original's tests prints as it does there |
| `ShortGuid.PrintingIsInjective` | Estudos-ShortGuids/Estudos.ShortGuids/ShortGuid.cs:17-20 | Distinct Guids print differently |
| `ShortGuid.DecodesToSixteenExactly` | Estudos-ShortGuids/Estudos.ShortGuids/ShortGuid.cs:39-40 | 22 characters with the padding put back decode to sixteen bytes if and only if all of them are digits |
| `ShortGuid.ParsesExactly` | Estudos-ShortGuids/Estudos.ShortGuids/ShortGuid.cs:27-41 | Parsing succeeds if and only if there are 22 characters of either alphabet that do not spell the empty Guid |
| `ShortGuidAnswer.AnswersExactly` | Estudos-ShortGuids/Estudos.ShortGuids/ShortGuid.cs:27-41 | What parsing answers to any text: an argument error to a blank one, a format error to any other that is not 22 characters long, the Guid or the argument error of the empty one to 22 digits, and one of two errors to any other 22 characters |
| `ShortGuidAnswer.WrongByteCountExactly` | Estudos-ShortGuids/Estudos.ShortGuids/ShortGuid.cs:39-40 | Which of the two: the wrong number of bytes if and only if what is left without spaces are digits that make whole bytes |
| `ShortGuid.ParseThenPrintExactly` | Estudos-ShortGuids/Estudos.ShortGuids/ShortGuid.cs:27-41 | A parsed text prints as itself if and only if it is URL-safe and its last digit drops no bits; every other text is a second spelling |
| `SseService.SseClient.Disconnect` | Estudos-SSE/Estudos.SSE.Core/Clients/SseClient.cs:24-35 | Returns true and aborts the request the first time only |
| `SseService.SseClient.Send` | Estudos-SSE/Estudos.SSE.Core/Clients/SseClient.cs:37-47 | Writes to a connected client and refuses any other |
| `SseService.SseService.IsClientConnectedAsync` | Estudos-SSE/Estudos.SSE.Core/Services/SseService.cs:44 | True exactly when the map or the storage has the id |
| `SseService.SseService.GetClients` | Estudos-SSE/Estudos.SSE.Core/Services/SseService.cs:53 | A snapshot of exactly the listed clients |
| `SseService.SseService.ConnectClientAsync` | Estudos-SSE/Estudos.SSE.Core/Services/SseService.cs:55-60 | The objects move from one state of the step-by-step model to another: id stored, client listed unless the id is taken, request waiting |
| `SseService.SseService.DisconnectClientAsync` | Estudos-SSE/Estudos.SSE.Core/Services/SseService.cs:62-68 | The objects move to the state in which the client is disconnected and its id is in neither storage nor map |
| `SseService.SseService.SendEventAsync` | Estudos-SSE/Estudos.SSE.Core/Services/SseService.cs:81-109 | A send that reaches its client writes to it and moves the objects by the three steps of a send; a cancelled one, or one that reaches nobody, changes nothing |
| `SseService.SseMiddleware.Accept` | Estudos-SSE/Estudos.SSE.Core/Middlewares/SseMiddleware.cs:53-69 | Null, the conflict, exactly when the id is listed or stored, and then nothing changes; otherwise the objects take the five steps of the model from arrival to waiting |
| `SseService.SseMiddleware.Leave` | Estudos-SSE/Estudos.SSE.Core/Middlewares/SseMiddleware.cs:69-71 | The objects take the three steps of the model from waiting to finished |
| `SseService.CloseExpiredConnections.Sweep` | Estudos-SSE/Estudos.SSE.Core/BackgroundServices/CloseExpiresConnectionSseBackgroundService.cs:59-65 | One round of the loop visits every listed client and moves the objects by the round of the model |
| `SseService.SweepIsARun` | Estudos-SSE/Estudos.SSE.Core/BackgroundServices/CloseExpiresConnectionSseBackgroundService.cs:59-65 | That round is a run of the sweep's steps, from the snapshot to the last client |
| `SseService.SweepClosesTheMissing` | Estudos-SSE/Estudos.SSE.Core/BackgroundServices/CloseExpiresConnectionSseBackgroundService.cs:61-65 | It closes exactly the visited clients whose ids are not in the storage, and leaves the storage as it was |
| `SseLifecycleProperties.ProceedKeepsTidy` | Estudos-SSE/Estudos.SSE.Core/Middlewares/SseMiddleware.cs:53-71 | Every step of a request keeps the invariant of map, storage, sweep and sends |
| `SseLifecycleProperties.VisitKeepsTidy` | Estudos-SSE/Estudos.SSE.Core/BackgroundServices/CloseExpiresConnectionSseBackgroundService.cs:61-64 | The storage question of the sweep keeps it: a connected listed client that is missing has expired |
| `SseLifecycleProperties.CloseKeepsTidy` | Estudos-SSE/Estudos.SSE.Core/BackgroundServices/CloseExpiresConnectionSseBackgroundService.cs:64 | Each step of closing a client from the sweep keeps it |
| `SseLifecycleProperties.UpdateKeepsTidy` | Estudos-SSE/Estudos.SSE.Core/Services/SseService.cs:103 | A storage update that comes after its client has left keeps it |
| `SseLifecycleProperties.UnusedStays` | Estudos-SSE/Estudos.SSE.Core/Services/SseService.cs:44-109 | Only by being let in does a request come to use its id: a request that has left, or was refused, never does again |
| `SseLifecycleProperties.RunKeepsTidy` | Estudos-SSE/Estudos.SSE.Core/Services/SseService.cs:44-68 | Every interleaving of requests, refusals, aborts, sends, sweeps and expiry keeps it as long as whoever is let in has its id to itself |
| `SseQuietArrivals.NoRequestIsRefused` | Estudos-SSE/Estudos.SSE.Core/Middlewares/SseMiddleware.cs:53-58 | When every id that arrives is quiet, whoever is let in has its id to itself, and nobody is answered with a conflict |
| `SseQuietArrivals.StepKeepsOrderly` | Estudos-SSE/Estudos.SSE.Core/Middlewares/SseMiddleware.cs:53-71 | Each step keeps, of two requests with one id, the earlier one gone, and no request known to map or storage before it is stored itself |
| `SseLifecycleProperties.ConnectedClientsAreReachable` | Estudos-SSE/Estudos.SSE.Core/Services/SseService.cs:44-68 | A waiting connected client is in the map under its id, and its id is in the storage unless it expired there and was not stored again |
| `SseLifecycleProperties.SweepFindsOnlyTheLapsed` | Estudos-SSE/Estudos.SSE.Core/BackgroundServices/CloseExpiresConnectionSseBackgroundService.cs:61-62 | A sweep that visits a connected client and misses its id in the storage: the id has expired there and was not stored again since |
| `SseLifecycleProperties.SweepsCloseOnlyTheExpired` | Estudos-SSE/Estudos.SSE.Core/BackgroundServices/CloseExpiresConnectionSseBackgroundService.cs:64 | A sweep that has made up its mind is the first to disconnect a client only if its id expired at some time of the run |
| `SseLifecycleProperties.SweepsAreIdleWithoutExpiry` | Estudos-SSE/Estudos.SSE.Core/BackgroundServices/CloseExpiresConnectionSseBackgroundService.cs:57-65 | Without expiry every connected client of the map has its id in the storage, and no sweep is the first to disconnect one |
| `SseLifecycleProperties.MapEmptiesWhenAllHaveLeft` | Estudos-SSE/Estudos.SSE.Core/Services/SseService.cs:62-68 | The map is empty once no request is between joining and leaving it |
| `SseLifecycleProperties.NobodyLeavesUnasked` | Estudos-SSE/Estudos.SSE.Core/Middlewares/SseMiddleware.cs:69-71 | Until a request is aborted or a sweep begins every client stays connected |
| `SseLostClients.AdmissionIsSafeExactly` | Estudos-SSE/Estudos.SSE.Core/Middlewares/SseMiddleware.cs:53-69 | Letting a request in is safe if and only if no other request uses its id: then no continuation loses a connected client, whoever arrives, is refused or expires, until somebody else is let in; otherwise one does, even if nobody arrives and nothing expires |
| `SseLostClients.ArrivalIsSafeExactly` | Estudos-SSE/Estudos.SSE.Core/Middlewares/SseMiddleware.cs:53-71 | An arrival can lose a connected client if and only if an earlier request uses its id: it was let in and has not left, or the sweep will still remove the id |
| `SseReuse.ReuseIsSafeExactly` | Estudos-SSE/Estudos.SSE.Core/Middlewares/SseMiddleware.cs:53-71 | Between quiet arrivals an id may arrive if and only if it is quiet: not in the storage, and every earlier request with it finished, out of the sweep's hands and not about to be renewed. Then no continuation refuses a request or loses a client; otherwise some continuation does, even if nothing expires |
| `SseReuse.NotGoneBreaks` | Estudos-SSE/Estudos.SSE.Core/Services/SseService.cs:44-109 | For every way in which an earlier request is not gone there is a continuation that refuses a request or loses a client |
| `SseReusedIds.TwinIsLost` | Estudos-SSE/Estudos.SSE.Core/Services/SseService.cs:44-60 | The earlier request has not finished: both are accepted, one joins the map, and when it leaves the other stays connected with no way to reach it |
| `SseReusedIds.SweepDropsTheSecond` | Estudos-SSE/Estudos.SSE.Core/BackgroundServices/CloseExpiresConnectionSseBackgroundService.cs:57-65 | Only the sweep still holds the earlier client: the second request loses its place to it |
| `SseReusedIds.LateSendLocksTheIdOut` | Estudos-SSE/Estudos.SSE.Core/Services/SseService.cs:98-103 | Only a send is still under way: it renews the id, which is then refused although nobody is connected |
| `SseReusedIds.SweepClosesARenewedClient` | Estudos-SSE/Estudos.SSE.Core/BackgroundServices/CloseExpiresConnectionSseBackgroundService.cs:61-64 | A sweep that has missed an id closes its client although a send renews the id in between |

## Left out

- Cashier: amounts with fractions of a cent, the decimal type's range, null or mutated unavailable lists. The value
  classes `Purchase` and `Customer` appear as the two argument errors they raise.
- LunchBreak.Half: halving a time span in ticks with an odd one rounded to even; the loss of precision of the
  original's floating-point division beyond 2^53 ticks is not modelled.
- LunchBreak.PeriodList.FromTimes: requires an even number of times; on an odd number the original raises an index
  error.
- CircularBuffer.EntryCircularBuffer.AddOrUpdate: with items that repeat a key, which the constructor accepts, only the
  first slot holding it is updated; that the ring is then a keyed store is claimed for distinct items only.
- Ring buffer: reads outside the lock, enumeration, timestamps taken from the clock. Each public operation is one
  atomic step.
- IdempotentConsumer: runs are sequential; two calls with one key at the same time, SQL itself, cancellation, the
  membership strategy without states and `SetEntries` are left out. Table reads inside `AddOrUpdate` count as part of
  its command. The in-memory repository is modelled on values: one ring for each instance, with a capacity of at least
  one slot (the original replaces 0 by 100 and fails on a negative one).
- Blockchain: `int` overflow of amounts and nonces, the clock, console output, SHA-256 and JSON. Difficulties above
  the digest's 44 characters, on which the original fails.
- Blockchain.BlockObject.Mine: requires a hash at least as long as the prefix, or none; on a shorter one the original
  raises an error.
- Transactions are immutable values; changing a transaction object after it was added is not modelled.
- PeerSync: malformed messages, sockets, closing of connections, two handlers running at once. A received chain uses
  the receiver's configuration.
- PeerNetwork: the network is a state machine over values; messages of a session arrive in order and are never lost.
- PeerNetwork.HandshakeAgrees: is about a new session between two different nodes.
- EventFrames: `uint` is a natural number; a null event name or data, on which the original fails.
- EventStream.ReadStream: a byte sequence that is not UTF-8 is reported as such instead of being read with
  replacement characters; the frames never produce one.
- EventExactness.ReadsBackExactly: leaves out the properly named events whose id leaves data behind and whose data has a
  line end: the lines of the one can then stand in for what the other loses, as they do in `DataInTheIdReadsBack`.
- ConfigurationParser: reading JSON text, the order of the sorted dictionary, culture-specific printing of values.
- ShortGuid: the byte order inside a Guid; a Guid is its sixteen bytes. A null text is treated as an empty one.
- SseService.SseService.SendEventAsync: the list of clients always has one element in the original; the loop over it
  is a single step. Writing never fails.
- SseLifecycle: authorisation, response headers, the connected and disconnected callbacks and a storage that throws.
  The original takes a client's storage membership and its place in the map as separate steps, and so does the model;
  within one step nothing interleaves. Only one sweep is under way at a time, as in the original.
- SseReuse.ReuseIsSafeExactly: is about runs whose arrivals have been quiet so far; of all others
  `SseLostClients.ArrivalIsSafeExactly` says when an arrival can lose a client, not when it can be refused.
- SseLifecycleProperties.MapEmptiesWhenAllHaveLeft: nothing is claimed of the storage, to which a late send can add an
  id again.
- Everything that only wires libraries together: web hosts, controllers, dependency injection, entity mappings, cloud,
  queue, cache and tracing samples, the browser test itself, and small samples such as Fibonacci, options and
  pipelines.
