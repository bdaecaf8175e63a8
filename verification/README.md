# A verified model of the TNC640 userspace RTOS and its list and key code

The emulator of this repository runs the TNC 640 control by imitating a realtime kernel in a
segment of shared memory: tasks, event words, semaphores, mailslot queues, a table of queue names,
task rendezvous and async signals, all built from atomics, one futex lock and futex waits, and used
by many threads of many processes at once. This project models that machinery, two pieces of
pointer code recovered from the control's libraries, the message serializer and the keypad's two
key encodings, and proves what they promise.

## How to read it

* **Step systems** (`FutexLock`, `EventWord`, `Semaphore`, `Notify`, `Rendezvous`, `OrphanTokens`,
  `AsyncSignals`): each atomic operation, each section under the global lock and each futex wait or
  wake is one step of one thread. A futex wait sleeps only if the word still holds the expected
  value, and may return early. `Runs` holds the one induction over runs, `Ledger` what the history
  of a word says about each bit. All results are about every state of every run of any number of
  threads or calls. That sections under the lock may be taken as single steps is what `FutexLock` is
  for.
* **State updated in place** (`Ring`, `NameTable`, `Relay`, `Builders`, `BamList`, `Navigator`,
  `AsyncSignals.Task`, `Keypad.ScancodesFor`): classes, arrays and loops as in the code, each method
  tied to a function on values (`Mailslot`, `Names`, `Wire`, ...), and the promises proved about
  that function over any sequence of calls (`Fifo`, `Serial`, `Names`).
* Event, mask and notify words are used only through OR, AND and AND-NOT and are modelled as the
  set of their one bits (`Words`). Counters and serials are 32-bit and wrap around.

## Where the code does not do what is expected of it

* **Ring counters.** Slots are chosen by counter modulo 12, and 12 does not divide 2^32. A send
  overwrites a pending message exactly when the tail counter is below 4 and at least 4 messages stay
  pending, which needs a wrap-around (`Ring.SpreadAfterSendIff`, `Ring.WrapAroundLosesAMessage`).
* **Stand-ins.** `q_ident` cuts a name at its last dot, and the create it makes for an absent queue
  cuts once more. Looking up `b.x.y` while a guest owns `b` marks the guest's queue as a stand-in
  (`Names.DoubleDottedIdentMislabels`); exactly these lookups do (`Names.MarksExactIff`), and names
  with at most one dot never do.
  Such a mark also hides the guest's queue from compound names: after a lookup of `b.x.y`, `a.b`
  means a fresh stand-in although a guest owns `b` (`Names.CompoundMissesGuest`).
  `Names.CompoundIff` says exactly when `a.b` means a guest's queue.
* **Semaphore units.** Unit counts are converted to `int32_t`. 2^31 units are granted from an empty
  semaphore (`Semaphore.HugeRequestIsGrantedFromNothing`); `Semaphore.SoundStepIff` gives the guard
  of one step, and a run is right in all its states if and only if all its steps meet it
  (`Semaphore.SoundRunIff`).
* **T_start before T_create.** A task registers in four stores that nothing guards, the last of which
  clears its started word. A start that copies before the first can release it with nothing in its
  buffer (`Rendezvous.PrematureStart`); the buffer holds a context exactly when some start copied
  after the buffer was stored (`Rendezvous.DeliveredIff`), and no byte behind the declared size is
  written exactly when every start that copied read the size after it was stored or has a context
  that fits (`Rendezvous.WithinSizeIff`). A start that raises the word before it is cleared is lost:
  the task sleeps with its context delivered (`Rendezvous.LostStart`), for good
  (`Rendezvous.LostForGood`); `Rendezvous.StartedIff` gives the condition. Starters that use the id
  they are handed are safe from all of this. The size reported to the task is the uncut one.
* **Broadcasts before the subscriber.** The flush goes by a 32-bit counter. After 2^32 + 3
  broadcasts it delivers three (`Relay.WrappedCounterForgets`); the last twelve arrive exactly while
  the counter has not wrapped around or has reached twelve since (`Relay.History.FlushIsCompleteIff`).
* **Placeholder queues.** The create that gives a placeholder its owner and notify bits does not
  announce messages already queued, and the owner can sleep on them at rest
  (`Notify.UpgradeStrandsAMessage`). An upgrade leaves no way for the owner to be stranded if and only
  if nothing is queued or its bits are set or on the way at that moment (`Notify.UpgradeIsSafeIff`).
* A comment in the source speaks of 8 slots and `docs/17` of a 16384-byte message buffer; the code
  has 12 slots of 20480 bytes, and the model follows the code.

## Model

| member | source | states |
|---|---|---|
| FutexLock.StepKeepsInv | emulator/heros_rtos.c:207-214 | every step keeps mutual exclusion, "word is 1 iff held", and "a free lock with a sleeper has a wake pending or an awake contender" |
| FutexLock.LockIsSafe | emulator/heros_rtos.c:207-214 | all of this holds in every state of every run, for any number of threads |
| FutexLock.TryDecides | emulator/heros_rtos.c:207-214 | a thread that tries gets the lock iff nobody holds it, one that waits falls asleep iff somebody does, and an unlock frees it |
| FutexLock.RestMeansNobodyAsleep | emulator/heros_rtos.c:207-214 | a run cannot come to rest with a thread asleep on the lock |
| EventWord.ReachableStatesAreSound | emulator/heros_rtos.c:758-779 | catches contain only wanted, owed bits (all wanted ones under ALL) although load and clear are separate steps; a sleeper whose condition has become true has a wake pending |
| Ledger.OwedIsUntaken | emulator/heros_rtos.c:770-778 | a bit is owed iff some raise of it was not followed by a catch of it |
| EventWord.NothingLost | emulator/heros_rtos.c:908-916 | every bit ever sent is still in the word or was caught after it was sent |
| EventWord.CaughtOnceSinceRaised | emulator/heros_rtos.c:770-778 | every caught bit goes back to a send that no earlier catch has taken |
| EventWord.CatchTakesAllWanted | emulator/heros_rtos.c:770-778 | a catch takes exactly the wanted bits that were in the word at its own load |
| EventWord.LoadDecides | emulator/heros_rtos.c:769-780 | a receive that looks at the word goes on to catch iff all (ALL) or some (ANY) wanted bits are in it; otherwise a poll returns with nothing and any other call waits |
| EventWord.ForeverMeansCaught | emulator/heros_rtos.c:846-855 | a call without a time limit returns only with a catch |
| EventWord.SendRaises | emulator/heros_rtos.c:908 | a send puts all its bits into the word |
| Semaphore.Int32Sum | emulator/heros_rtos.c:1246-1284 | cutting to 32 bits early or late gives the same count |
| Semaphore.StepKeepsInv | emulator/heros_rtos.c:1246-1284 | whatever callers pass, the count word is initial plus released minus granted units, cut to 32 bits |
| Semaphore.SoundStepIff | emulator/heros_rtos.c:1248-1284 | a grant or release keeps the count exact and non-negative iff a guard on its unit count holds |
| Semaphore.HugeRequestIsGrantedFromNothing | emulator/heros_rtos.c:1248-1249 | a run in which the promise fails without the guard |
| Semaphore.CountIsExact | emulator/heros_rtos.c:1231-1288 | in every interleaving whose changes of the count meet the guard, over any number of units released and granted, the count is exact and non-negative, and a sleeper that could proceed has a releaser between its add and its wake |
| Semaphore.CountIsBalanceCut | emulator/heros_rtos.c:1246-1284 | in every run whatsoever the count word is initial plus released minus granted units, cut to 32 bits |
| Semaphore.RequestDecides | emulator/heros_rtos.c:1247-1254 | in every run a request that looks at the count goes for its units (0 meaning 1) iff the count covers them; otherwise it is refused or waits, as told |
| Semaphore.WaitDecides | emulator/heros_rtos.c:1266 | a waiting request falls asleep iff the count is still what it saw |
| Semaphore.GrantTakes | emulator/heros_rtos.c:1248-1249 | units seen can be taken while the count is unchanged, and a grant takes exactly the units asked for |
| Semaphore.ReleaseAdds | emulator/heros_rtos.c:1283-1284 | a release adds exactly its units |
| Semaphore.SoundRunIff | emulator/heros_rtos.c:1246-1284 | the count is exact and non-negative in all states of a run iff the initial count fits 31 bits and every change of the count meets the guard |
| Semaphore.SaneCallersAreSound | emulator/heros_rtos.c:1246-1284 | callers whose requests and total releases fit 31 bits meet the guard in every interleaving |
| Semaphore.BarrierOpensExactly | emulator/heros_rtos.c:1270-1288 | with N one-unit requests every state at rest has granted exactly min(N, initial + released), as long as no release overflows the count |
| Mailslot.WithSerial | emulator/heros_rtos.c:1733-1738 | writing a serial changes the four bytes at offset 4 and nothing else |
| Mailslot.Clip | emulator/heros_rtos.c:1665-1669 | a payload is kept whole up to 20480 bytes and cut there |
| Mailslot.Header | emulator/heros_rtos.c:1697 | the mode in the lower half of the header word, the size in the upper |
| Mailslot.Renumber | emulator/heros_rtos.c:1726-1743 | nothing but the serial field is ever touched, and that only on a window-manager queue with renumbering on |
| Mailslot.Family | emulator/heros_rtos.c:2546-2548 | the family is bytes 2 and 3 of the message |
| Mailslot.FirstOf | emulator/heros_rtos.c:2546-2550 | the first pending message of a family, or none |
| Ring.SpreadIff | emulator/heros_rtos.c:1693 | pending messages have different slots iff fewer than five are pending or none is numbered past the wrap-around |
| Ring.SpreadAfterSendIff | emulator/heros_rtos.c:1685-1693 | a send finds a free slot iff it does not collide |
| Ring.WrapAroundLosesAMessage | emulator/heros_rtos.c:1685-1693 | a concrete send that overwrites the oldest of four messages |
| Ring.WindowAfterSend | emulator/heros_rtos.c:1685-1698 | storing at tail modulo 12 and advancing is dropping the oldest of twelve and appending |
| Ring.ShiftOne | emulator/heros_rtos.c:2625-2627 | one turn of the shifting loop, over modular slots |
| Ring.QueueSlots.Send | emulator/heros_rtos.c:1684-1765 | the slot array after q_send holds the bounded FIFO after the send, header, cut payload and renumbered serial included; the ring stays well-formed iff the send does not collide |
| Ring.QueueSlots.SendWithRoom | emulator/heros_rtos.c:1684-1765 | before the 2^32nd message no send collides |
| Ring.QueueSlots.Choose | emulator/heros_rtos.c:2537-2555 | the search of a routed read |
| Ring.QueueSlots.CloseGap | emulator/heros_rtos.c:2625-2629 | the in-place shift removes one message and keeps the order of the others |
| Ring.QueueSlots.TryRead | emulator/heros_rtos.c:2526-2629 | one read attempt; what it hands out fits the buffer, and a miss or a too small buffer changes nothing |
| Ring.QueueSlots.Drive | emulator/heros_rtos.c:1684-1765 | after any sends and reads, fewer than 2^32 of them sends, the slots hold what the value queue of Fifo holds |
| Fifo.BoundedFifo | emulator/heros_rtos.c:1684-1765 | over any sends and reads: removed messages followed by pending ones are the accepted ones, at most 12 pending |
| Fifo.PayloadsArriveUnaltered | emulator/heros_rtos.c:1684-1765 | for every queue, removed and pending messages are the sent ones, whole up to 20480 bytes, in order and unaltered but for the serials of a renumbered queue |
| Fifo.PlainRead | emulator/heros_rtos.c:2536-2622 | a read without routing takes the oldest message iff there is one and it fits; it reports none or too big exactly otherwise, and then changes nothing |
| Fifo.EachFamilyIsFifo | emulator/heros_rtos.c:2537-2629 | with routed and plain reads mixed, each family is still served first in, first out |
| Fifo.RoutedRead | emulator/heros_rtos.c:2537-2629 | a routed read takes exactly the first message of its family and leaves the others in order, or changes nothing |
| Fifo.NoDropWhileRoom | emulator/heros_rtos.c:1685-1692 | nothing is dropped while the free slots cover the sends |
| Serial.StreamIsGapless | emulator/heros_rtos.c:1701-1743 | in every interleaving of real events 1, 2, 3, ..., ticks and reads, the k-th stored message carries serial k |
| Serial.ClientFailsOnlyAfterDrop | emulator/heros_rtos.c:1701-1743 | the client's serial-minus-one check fails iff a full queue dropped something since its last read |
| Serial.AnotherTick | emulator/heros_rtos.c:2488-2494 | each tick of a burst takes the next serial |
| Serial.TickLayout | emulator/heros_rtos.c:2488-2493 | a tick is 0x41C bytes: type, serial, zero, timer, zeros |
| Serial.MaybeTick | emulator/heros_rtos.c:2466-2497 | a due burst into a queue seen empty stores one tick per timer, at most 8, and drops nothing; otherwise nothing changes |
| Relay.OneMorePost | emulator/heros_rtos.c:1377-1382 | one more flushed broadcast keeps "the last twelve, in order" |
| Relay.History.Record | emulator/heros_rtos.c:2036-2041 | the 32-entry ring remembers the last 32 broadcasts, across counter wrap-around |
| Relay.History.Flush | emulator/heros_rtos.c:1374-1383 | creation leaves the subscriber queue with exactly the last min(n, 12) broadcasts for the 32-bit counter n, in order and unaltered; they are the last 12 of all ever posted iff the counter has not wrapped around or has reached 12 since |
| Relay.LastTwelveIff | emulator/heros_rtos.c:1376-1382 | the same condition on the broadcasts themselves |
| Relay.WrappedCounterForgets | emulator/heros_rtos.c:1376-1382 | after 2^32 + 3 broadcasts only three are delivered |
| Relay.History.FlushIsCompleteIff | emulator/heros_rtos.c:1376-1382 | what a flush leaves is complete iff that condition holds |
| Notify.AgentKeepsMessages | emulator/heros_rtos.c:1765-1777 | every step of a sender or reader keeps: a non-empty queue has its notify bits set or somebody about to set them |
| Notify.OwnerKeepsInv | emulator/heros_rtos.c:2622-2640 | so does every step of the owner, between catch, read and re-assert |
| Notify.ReachableStatesAreSound | emulator/heros_rtos.c:1765-1777 | all invariants of the protocol, FIFO included, in every reachable state |
| Notify.SendEnqueues | emulator/heros_rtos.c:1684-1772 | a send enqueues its whole message and remembers the bits to notify |
| Notify.ReaderTakesOldest | emulator/heros_rtos.c:2608-2640 | a reader takes the oldest message if it fits, and announces the rest |
| Notify.OwnerTakesOldest | emulator/heros_rtos.c:2608-2640 | so does the owner after catching a notify bit |
| Notify.ReaderWaits | emulator/heros_rtos.c:2749-2752 | a reader that finds nothing waits, and falls asleep iff nothing has come since |
| Notify.OwnerNotStranded | emulator/heros_rtos.c:903-916 | the owner never sleeps on its notify bits with messages queued and no wake on the way |
| Notify.ReaderNotStranded | emulator/heros_rtos.c:2749-2752 | neither does a reader blocked on the tail word |
| Notify.RestMeansDrained | emulator/heros_rtos.c:2622-2640 | a system at rest has handed out or dropped every accepted message |
| Notify.CreatedWithBitsIsClean | emulator/heros_rtos.c:1340-1343 | every run of a queue created with notify bits is covered by these results |
| Notify.UpgradeIsSafeIff | emulator/heros_rtos.c:1340-1343 | after any run, an upgrade leaves no continuation that strands its owner iff nothing is queued or the bits are set or on the way at the upgrade |
| Notify.UncleanUpgradeStrands | emulator/heros_rtos.c:1340-1343 | from every other upgrade some continuation ends with the owner asleep on a notify bit, messages queued and no wake on the way |
| Notify.UpgradeStrandsAMessage | emulator/heros_rtos.c:1340-1343 | a run to a state at rest whose owner sleeps on its notify bit with a message queued |
| Names.NamesAndIdsStayDistinct | emulator/heros_rtos.c:1312-1369 | over any calls live names and live ids are pairwise distinct and a freed id is not reissued |
| Names.OwnerIsNotDisplaced | emulator/heros_rtos.c:1340-1343 | a notifying owner keeps its queue until the queue is deleted |
| Names.NewQueueIsOwned | emulator/heros_rtos.c:1353-1369 | a new queue belongs to its creator with the notify bits of its flags, takes a free slot and the next id, and is refused only by a full table |
| Names.CreateTakesOver | emulator/heros_rtos.c:1334-1351 | creating a queue again returns it, gives a placeholder its notifying owner, and ends being a stand-in |
| Names.DeleteFreesOne | emulator/heros_rtos.c:1312-1325 | a delete frees exactly the slot of its id, or fails and changes nothing |
| Names.MarksExactIff | emulator/heros_rtos.c:1484-1487 | a call keeps "marked iff no guest create has claimed it" iff it is not a mislabelling lookup |
| Names.DoubleDottedIdentMislabels | emulator/heros_rtos.c:1484-1487 | a concrete lookup that turns a guest's queue into a stand-in |
| Names.MarksStayExact | emulator/heros_rtos.c:1345-1348 | marks stay exact over any calls whose looked-up names have at most one dot |
| Names.UnmarkedStayOwned | emulator/heros_rtos.c:1345-1348 | over any calls whatever, an unmarked live queue was created by a guest |
| Names.CompoundIff | emulator/heros_rtos.c:1473-1487 | after any calls, "a.b" resolves to a guest-created queue iff a is one, or b is unmarked, or the stand-in for a dotted a is cut to a guest's queue |
| Names.CompoundFindsGuest | emulator/heros_rtos.c:1473-1483 | after calls that look up names with at most one dot, "a.b" resolves to the guest-created queue named by either part, a first |
| Names.CompoundMissesGuest | emulator/heros_rtos.c:1473-1487 | a lookup of "b.x.y" after which "a.b" no longer finds the guest's "b" |
| Names.LeadingDotFindsQueue | emulator/heros_rtos.c:1436-1439 | ".x" resolves to x |
| Names.EmptyBaseIsPlain | emulator/heros_rtos.c:1472-1483 | any other name with nothing before its last dot means the queue with the empty name |
| Names.PlainNameIsFound | emulator/heros_rtos.c:1419-1422 | a name without dots means the queue of that name |
| Names.AbsentNameGetsStandIn | emulator/heros_rtos.c:1484-1490 | if there is none, a probe is reported absent and any other name gets a marked stand-in of the caller |
| Names.HostFrameIsAbsent | emulator/heros_rtos.c:1450 | the host frame queue is reported absent |
| Names.ContainsIff | emulator/heros_rtos.c:1450 | the search for a name part finds it exactly where it is |
| Names.BaseName | emulator/heros_rtos.c:1300-1303 | the base name is what precedes the last dot of the first 31 characters |
| Names.ProbeIff | emulator/heros_rtos.c:1390-1418 | the probe names are exactly the logger queue, HwsM..., and PLC<hex>N<hex> |
| Names.ProbeOnlyLooks | emulator/heros_rtos.c:1390-1418 | asking for a probe name never changes the table and tells exactly whether it is there |
| Names.ScanStops | emulator/heros_rtos.c:1484-1490 | a scan over distinct probe names stops after at most one more name than there are live queues |
| NameTable.QueueTable.QCreate | emulator/heros_rtos.c:1326-1369 | the table after q_create, upgrade and adoption included |
| NameTable.QueueTable.QDelete | emulator/heros_rtos.c:1312-1325 | the table after q_delete |
| NameTable.QueueTable.QLookup | emulator/heros_rtos.c:1419-1483 | the lookups of q_ident, one search after the other, decide as specified |
| NameTable.QueueTable.QIdent | emulator/heros_rtos.c:1419-1491 | the table and id after q_ident |
| NameTable.QueueTable.Drive | emulator/heros_rtos.c:1312-1491 | after any calls the stored table, with the ids guests' creates returned, is the one Names speaks of |
| Rendezvous.ReachableStatesAreSound | emulator/heros_rtos.c:3611-3657 | the invariants of create and start in every reachable state, each store of the registration and each part of a start a step of its own |
| Rendezvous.LeavesOnlyWhenStarted | emulator/heros_rtos.c:3640-3654 | a task leaves T_create only after a raise since its word was cleared, and cannot sleep through it |
| Rendezvous.LookDecides | emulator/heros_rtos.c:3640-3641 | a task that looks at its word leaves iff some start has raised it since it was cleared |
| Rendezvous.StartDoes | emulator/heros_rtos.c:3646-3653 | a start copies as much of its context as fits, reports the whole size, raises the word and wakes the task |
| Rendezvous.StartedIff | emulator/heros_rtos.c:3615-3654 | when all starts have returned and the task has left or sleeps, it has left iff one of them raised the word after it was cleared |
| Rendezvous.LostForGood | emulator/heros_rtos.c:3615-3654 | otherwise it never leaves |
| Rendezvous.LostStart | emulator/heros_rtos.c:3615-3654 | a start between the stores and the clearing delivers the context and leaves the task asleep with nobody to wake it |
| Rendezvous.DeliveredIff | emulator/heros_rtos.c:3648-3652 | with any number of starters, a context is delivered iff some start copied after the buffer was stored, and its size iff some start reported after the place for it was stored |
| Rendezvous.WithinSizeIff | emulator/heros_rtos.c:3650-3651 | no byte behind the declared size is written iff every start that copied read the size after it was stored or has a context that fits |
| Rendezvous.HandedIdsSuffice | emulator/heros_rtos.c:3640-3654 | if starters use ids they were handed, the task leaves with a context and its size |
| Rendezvous.LeavesWithContext | emulator/heros_rtos.c:3649-3654 | if no start begins before the registration, the task leaves with the context copied last, cut to its declared size and not a byte more; one starter's context and size go together |
| Rendezvous.PrematureStart | emulator/heros_rtos.c:3611-3654 | a run in which a premature start releases the task with an untouched buffer |
| OrphanTokens.TokensAreConserved | emulator/heros_rtos.c:763-767 | tokens published minus tokens taken is the shared counter, never negative |
| OrphanTokens.WaiterTakesToken | emulator/heros_rtos.c:763-767 | a waiter that looks goes for a token iff there is one, and gets it if the counter is unchanged; an orphan publishes one |
| OrphanTokens.ServedStaysServed | emulator/heros_rtos.c:3630-3634 | no more waits are served than tokens were published, each once |
| AsyncSignals.LockedTriggers | emulator/heros_rtos.c:1141-1189 | every bit a locked section raises or enables while pending is in the kick it leaves to do |
| AsyncSignals.StepKeepsAnnounced | emulator/heros_rtos.c:1141-1189 | every step keeps: a pending bit that is enabled or forced has had its kick or has it coming |
| AsyncSignals.NeverLeftUnannounced | emulator/heros_rtos.c:1141-1189 | this holds in every interleaving of sends, mask changes and reads |
| AsyncSignals.QuietMeansTold | emulator/heros_rtos.c:1141-1189 | with no call in flight every such bit has had its kick since it was last raised or enabled |
| AsyncSignals.StaysPendingUntilRead | emulator/heros_rtos.c:1178-1185 | in every interleaving a bit that was sent is still pending or was handed out by a later read |
| AsyncSignals.ReadHandsOutOnce | emulator/heros_rtos.c:1178-1185 | a read hands out a bit iff it was sent since the last read that handed it out and is forced or looked for |
| AsyncSignals.Task.AsSend | emulator/heros_rtos.c:1141-1153 | the bits become pending, and exactly those raised by this call and listened to are to be kicked |
| AsyncSignals.Task.AsMask | emulator/heros_rtos.c:1156-1175 | the mask changes by the asked bits only; every pending bit newly listened to is to be kicked and none that is not listened to; nothing pending is touched |
| AsyncSignals.Task.AsRead | emulator/heros_rtos.c:1178-1190 | handed out and still pending bits share out the old ones; handed out are exactly the bits raised since they were last handed out and forced or looked for |
| Wire.ReadFieldsWritten | emulator/heros_rtos.c:2820-2848 | for every schema, nested lists included, the reader recovers every value list, whatever follows it |
| Wire.WritingIsInjective | emulator/heros_rtos.c:2820-2848 | no value list's bytes equal or extend another's |
| Wire.WireBytes | emulator/heros_rtos.c:2820-2848 | the very bytes of strings, numbers and empty lists, present and absent |
| Builders.GmStr | emulator/heros_rtos.c:2827-2830 | a present string at the offset, nothing else changed, and the offset behind it |
| Builders.GmScalar | emulator/heros_rtos.c:2836-2848 | a present number or an empty list header at the offset |
| Builders.BuildProcess | emulator/heros_rtos.c:2853-2869 | the buffer holds the record's wire form and the returned length is its length |
| Builders.BuildAction | emulator/heros_rtos.c:2873-2879 | the same for a subsystem action |
| Builders.BuildSubsystem | emulator/heros_rtos.c:2884-2897 | the same for a subsystem with its nested process |
| Builders.MessageRoundTrip | emulator/heros_rtos.c:2853-2897 | a schema-driven reader recovers the record's values |
| Builders.ActionFieldsRead | emulator/heros_rtos.c:2871-2879 | a reader that knows the schema finds action, name and procedure in fields 0, 1 and 2 |
| Builders.ProcessFieldsRead | emulator/heros_rtos.c:2853-2869 | name, options and image path in fields 0, 1 and 4, everything else absent, empty or zero |
| Builders.SubsystemFieldsRead | emulator/heros_rtos.c:2884-2897 | name and namespace in fields 0 and 1, the one process in field 4 |
| Builders.ActionBytes | emulator/heros_rtos.c:2873-2879 | equal bytes iff equal records, an empty procedure counting as absent |
| Builders.ProcessBytes | emulator/heros_rtos.c:2853-2869 | equal bytes iff equal records |
| Builders.SubsystemBytes | emulator/heros_rtos.c:2884-2897 | equal bytes iff equal records |
| Builders.LeadingNameIff | emulator/heros_rtos.c:2970-2980 | the connect-ack code recovers a leading name iff it has 1 to 64 bytes and the message at least 16 |
| Builders.LeadingName | emulator/heros_rtos.c:2970-2980 | only a connect message with a leading string has a name, and it is that string |
| BamList.WalkIsSimple | recomp/aeplib2/aeplib2_rebuilt.c:14-28 | the path up to a2 never meets a node twice, even in a ring |
| BamList.ReachableHasWalk | recomp/aeplib2/aeplib2_rebuilt.c:14-28 | if links lead from a1 to a2 or to the end of the list, the walk exists and is finite |
| BamList.Mutate | recomp/aeplib2/aeplib2_rebuilt.c:14-28 | cut, walk, restore: exactly the path's nodes updated, every other field and every link as before |
| BamList.SetReplaces | recomp/aeplib2/aeplib2_rebuilt.c:14-18 | set replaces the field |
| BamList.AddSets | recomp/aeplib2/aeplib2_rebuilt.c:19-23 | add sets all bits of a3 |
| BamList.AddKeeps | recomp/aeplib2/aeplib2_rebuilt.c:19-23 | and keeps all others |
| BamList.DelClears | recomp/aeplib2/aeplib2_rebuilt.c:24-28 | delete clears all bits of a3 |
| BamList.DelKeeps | recomp/aeplib2/aeplib2_rebuilt.c:24-28 | and keeps all others |
| BamList.AddUndoneIff | recomp/aeplib2/aeplib2_rebuilt.c:19-28 | deleting added bits restores a node iff it had none of them |
| Navigator.NodesAreDistinct | recomp/dkomp/libEp90_Dm_dkomp_rebuilt.c:63-80 | the links of a well-formed list keep its nodes apart |
| Navigator.Resolve | recomp/dkomp/libEp90_Dm_dkomp_rebuilt.c:18-25 | every filled channel leads to its container, and an empty one or no handle to none |
| Navigator.GetFirst | recomp/dkomp/libEp90_Dm_dkomp_rebuilt.c:37-43 | first is a move to index 0 |
| Navigator.GetLast | recomp/dkomp/libEp90_Dm_dkomp_rebuilt.c:46-52 | last is a move to the last index |
| Navigator.GetCurrent | recomp/dkomp/libEp90_Dm_dkomp_rebuilt.c:55-60 | current is the node at the index |
| Navigator.GetNext | recomp/dkomp/libEp90_Dm_dkomp_rebuilt.c:63-70 | next is an index move; off the end it returns null and keeps the cursor |
| Navigator.GetPrev | recomp/dkomp/libEp90_Dm_dkomp_rebuilt.c:73-80 | prev likewise |
| Navigator.ThereAndBack | recomp/dkomp/libEp90_Dm_dkomp_rebuilt.c:63-80 | on the list itself, a next or prev that finds a node is undone by the other; it finds none exactly at the end |
| Navigator.Drive | recomp/dkomp/libEp90_Dm_dkomp_rebuilt.c:36-80 | any sequence of calls moves the cursor and answers as the index moves do |
| Navigator.Sweep | recomp/dkomp/libEp90_Dm_dkomp_rebuilt.c:36-70 | first and then next until null answers exactly the nodes of the list, in order |
| Navigator.FirstThenNext | recomp/dkomp/libEp90_Dm_dkomp_rebuilt.c:36-70 | from any cursor, first and then m times next answers node i at step i, then null for good |
| Navigator.EdgeNext | recomp/dkomp/libEp90_Dm_dkomp_rebuilt.c:158-166 | walking on from a node of start..end stays in it and stops exactly at its end |
| Navigator.EdgePrev | recomp/dkomp/libEp90_Dm_dkomp_rebuilt.c:169-177 | walking back stops exactly at its start |
| Navigator.EdgeWalk | recomp/dkomp/libEp90_Dm_dkomp_rebuilt.c:136-166 | start and then next until null answers exactly the nodes start..end, in order |
| Navigator.EdgeWalkBack | recomp/dkomp/libEp90_Dm_dkomp_rebuilt.c:149-177 | end and then prev until null answers them in reverse |
| Keypad.ScancodesFor | keypad/tnckeymap.py:221-237 | the bytes the loops collect: modifiers down, key down, key up, modifiers up in reverse |
| Keypad.EncodingsAgree | keypad/tnckeymap.py:81-89 | the bytes of any list of operations decode to exactly its press and release events |
| Keypad.NothingStaysHeld | keypad/tnckeymap.py:221-237 | presses and releases nest and no key is held after any operation |
| Keypad.KeyGoesUnderModifiers | keypad/tnckeymap.py:221-256 | the key goes down and up while exactly the modifiers of the operation are held |
| Keypad.BytesDetermineKey | keypad/tnckeymap.py:81-89 | equal bytes mean equal key and modifiers |
| Keypad.ExtendedKeysHaveSiblings | keypad/tnckeymap.py:65-78 | each extended key has the make byte of the keypad or main key it shares a position with |
| Keypad.ButtonsAreEncodable | keypad/tnckeymap.py:81-89 | every keycode a button uses has a scancode |
| Keypad.TextReadsBack | keypad/tnckeymap.py:248-256 | the KP/KR text of any events reads back as those events |
| Keypad.TokensAreEvents | keypad/tnckeymap.py:248-256 | the joined lines of one operation, presses and then the presses reversed, are the text of its events |
| Keypad.TokensForFound | keypad/tnckeymap.py:248-256 | there are tokens for exactly the buttons with a key, those of their events |
| Keypad.TokensConcat | keypad/tnckeymap.py:248-256 | the operations' tokens one after the other are the text of all their events |
| Keypad.BothEncodingsMeanTheSame | keypad/tnckeymap.py:221-256 | for every list of operations the bytes and the tokens, each put together operation by operation, mean the same events |

## Left out

- Real memory, mmap, file descriptors, clocks, signal delivery and time-outs: futexes, atomics and kicks are abstract steps, a time-out is a step that may happen, and `as_deliver` is on.
- EventWord.NothingLost: a timed-out receive (line 855) reports bits without clearing them, so a later receive may report them again; only caught bits are counted. The event words assume a task table that is not full, so each thread has its own word.
- Notify.ReachableStatesAreSound: an upgrade of a placeholder is taken only when it is clean (Notify.UpgradeIsSafeIff); reads are plain FIFO, because a routed read lowers the tail a blocked reader waits on; the tail counter is the number of accepted messages, that is, less than 2^32 of them.
- Names.NamesAndIdsStayDistinct: each create, ident and delete is one step although q_ident takes the lock several times; sequences are shorter than the 2^32 ids.
- Serial.MaybeTick: the burst is one step and the handshake and period gates are one flag; it needs 8 numbers left before the tail counter wraps around. Up to four sends of others in between are covered by Fifo.NoDropWhileRoom.
- Relay.History.Flush: the subscriber's queue is new and its payloads are not renumbered; forwarding to a subscriber that already exists is a plain send.
- OrphanTokens.TokensAreConserved: conservation only; the wake of the waiters does not change the word they wait on, so no liveness is claimed.
- Rendezvous.ReachableStatesAreSound: plain stores and loads take effect in program order, and copying one context is one step; there is no buffer before the task stores one.
- Ring.QueueSlots.Send: a null message pointer, which leaves old bytes in the slot, is not modelled; nor is rewriting of area rectangles.
- Semaphore creation and lookup by name, region tables, timers and task names: easy members.
- Reply redirection by embedded names, synthetic acknowledgements, the ack deduplication table and all injected traffic other than ticks: they encode knowledge of closed binaries.
- The keypad's table of buttons: finite data; the encodings are proved for every table.
- Navigator handles: the four families differ only in where the container pointer lies, so one handle stands for all; the edge navigators take the channel's descriptor directly.
- The level-triggered re-assert before blocking, sysevent autofire, event injection and forced semaphore success: off by default.
- Tracing, crash handling, every other preload, floating-point geometry, table lookups, sockets and the GUI.
