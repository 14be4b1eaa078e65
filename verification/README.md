# Verified models of kernel objects, printing and firmware transfer

A Dafny model of the FreeRTOS V10.0.1 kernel objects of this repository, of its
`printf` and of the checksum and transfer loop of its upgrade tool, with proofs of
what they are for.  `dafny verify dfyconfig.toml` checks everything.

- **Lists** (`Lists.dfy`): the circular doubly linked list with its end marker, as
  heap objects, each operation proved against a sequence.
- **Software timers** (`TimerModel.dfy`, `TimerRuns.dfy`, `Timers.dfy`): `Timers` is
  the daemon as an object over two sorted lists and a 32-bit tick; `TimerModel` gives
  each of its steps as a function; `TimerRuns` relates the wrapped ticks to an
  unbounded clock over whole runs.
- **Queues** (`QueueModel.dfy`, `Queues.dfy`, `QueueProtocol.dfy`,
  `QueueOverflow.dfy`, `QueueBlocking.dfy`, `QueueSets.dfy`, `RecursiveMutex.dfy`):
  `Queues` is the ring buffer object, proved to refine the bounded sequence of
  `QueueModel`; the others are step machines over it in which tasks and interrupts
  interleave at every critical section, and for the recursive mutex at every load and
  store of the call count.  `QueueOverflow` is a run to the edge of what the lock count
  can remember, `QueueBlocking` an operation that nothing interrupts.
- **Event groups** (`EventModel.dfy`, `EventRuns.dfy`, `EventWords.dfy`,
  `EventGroups.dfy`, `Barrier.dfy`): the object on 32-bit words with control bits,
  proved to do what `EventModel` says on sets of bits; over that, all interleavings of
  its users, and the reusable barrier.
- **Stream and message buffers** (`StreamModel.dfy`, `StreamBuffers.dfy`,
  `StreamMessages.dfy`, `StreamWindow.dfy`, `StreamHandshake.dfy`, `StreamAlone.dfy`):
  the buffer object; the interleaving of one writer and one reader byte by byte; what a
  send does in the window of a receive that does not fit; the notification handshake,
  and what its operations do if nothing interrupts them.
- **Printing**: `Printf.dfy` and `PrintfDriver.dfy` are the loops over the output
  buffer, proved against the unlimited output that `PrintfModel.dfy` gives;
  `PrintfFacts.dfy` and `PrintfRoundTrip.dfy` relate that output to the numbers it
  denotes.  `PrintfReference.dfy` defines what the C standard prescribes, from the
  directive as written and the argument passed and without the code's functions for
  parsing or formatting; `PrintfDirectives.dfy` and `PrintfStrings.dfy` prove exactly when
  the two are equal, for integers and for strings, over `PrintfUnmarked.dfy`,
  `PrintfInk.dfy`, `PrintfConforms.dfy` and `PrintfMarked.dfy`; `PrintfDeviations.dfy`
  gives directives where they differ.  `PrintfFormats.dfy` proves which formats are read
  to their terminator and no further; `PrintfOutput.dfy` and `PrintfPieces.dfy` put
  directives and ordinary text together into whole formats.
- **Checksum and transfer** (`CrcTable.dfy`, `Crc.dfy`, `SendFw.dfy`): the table proved
  entry by entry, the checksum against long division bit by bit, and the chunking loop
  with every way it can end.

`Options.dfy`, `Sequences.dfy` and `Numbers.dfy` hold what several of these share.

Each step machine comes with a set of `...Keeps` lemmas (one or more per step), a
`RunKeeps` lemma over whole runs, and main theorems about every reachable state.

## Assumptions

- A timer start is executed less than 2^32 ticks after the time it refers to, the tick
  is sampled at least once per wrap while a timer is active, and the timer command queue
  has room for reload commands (`TimerRuns.Enabled`).  The first of these is shown tight.
- An interrupt posts to or receives from one queue at most 127 times in one lock window
  (`QueueProtocol.Enabled`); this too is shown to be needed, by a run.
- Set members are received from only after a select, are not overwritten, and the set is
  as long as its members together (`QueueSets.Enabled`).  Nobody posts to a queue while
  it is being removed from its set (`QueueSets.QuietRun`); what happens otherwise is
  under the next heading.
- Messages are not empty, a message with its header is shorter than 2^32 bytes, and
  twice the length of a stream buffer fits `size_t`.
- A send that falls into the window in which a too small receive has moved the tail
  finds space for four bytes more than it needs (`StreamMessages.Careful`), which the
  sender can test beforehand; `StreamWindow.CarelessLosesData` shows that this is exactly
  what is needed.
- The trigger level is not lowered to what the buffer holds under a reader that waits
  without a notification; `StreamHandshake.TriggerChange` shows that this is exactly what
  is needed.
- `int`, `long` and pointers are 32 bits wide and plain `char` is unsigned, as on ARM.
- `sendfw` is given a chunk size of at least 2: with less its chunks are empty and its
  loop does not end.

## Where the code falls short of its documentation

- `xQueueRemoveFromSet` tests for messages before it enters its critical section, so a
  queue can leave the set with its handle still in it (`QueueSets.RemovalRace`).
- A receive from a message buffer with too small a buffer publishes a moved tail before
  it restores it (`StreamMessages.WindowOverstates`); a send in between can destroy
  messages already stored (`StreamWindow.LosingRun`).
- `xStreamBufferSetTriggerLevel` accepts a level equal to the length of the buffer, which
  holds one byte less, so that a reader without time-out waits forever on a full buffer
  (`StreamHandshake.StuckOnFullBuffer`).
- `printf` deviates from the C standard (`PrintfDirectives.DirectiveConformsIff` has the
  exact condition, `PrintfDeviations` inputs) in these ways.  With # and no precision,
  where digits or padding zeros fill the width exactly, the marker takes the place of one
  digit, or two in base 16, even if they belong to the value; and with # an octal zero of
  precision zero prints nothing, and an octal number that its precision already starts
  with a zero is given one more.  A negative precision counts as zero.  hh with a sign
  prints the unsigned value.  A precision beside - adds no zeros.  Sign, marker, zeros and
  digits are cut at 32 characters, and 64-bit values in base 2 with them
  (`PrintfFacts.LongLongDigits`).  %ls prints the first character of a wide string
  (`PrintfStrings.WideConformsIff`).
- A format that ends inside a directive makes `printf` read past the terminator
  (`PrintfFormats.PercentAtTheEnd`); `PrintfFormats.InsideIff` says exactly which formats
  do.  INT_MIN as a width or a signed value is negated, which C leaves undefined, and so
  does the model.
- `sendfw` meets a file of at most 256 bytes with a message that cannot be put together,
  so it raises `TypeError` instead of reporting the size.

## Model

| member | source | states |
|---|---|---|
| ListOrder.InsertKeepsSorted | FreeRTOS/lib/FreeRTOS/list.c:103-167 | the position vListInsert chooses keeps a sorted list sorted, after every equal value and before every greater one |
| Lists.ListItem.constructor | FreeRTOS/lib/FreeRTOS/list.c:62-71 | a new item is in no list |
| Lists.SpliceIn | FreeRTOS/lib/FreeRTOS/list.c:157-160 | routing one link of a circular doubly linked list through a new node gives a circle with that node and no other change |
| Lists.SpliceOut | FreeRTOS/lib/FreeRTOS/list.c:176-177 | routing a link around a node gives the circle without it |
| Lists.InsertedSorted | FreeRTOS/lib/FreeRTOS/list.c:122-160 | node list and value list agree: an item entering after the end marker and the insertion point leaves the values sorted |
| Lists.List.constructor | FreeRTOS/lib/FreeRTOS/list.c:37-59 | an initialised list is well formed, empty, with pxIndex on the end marker |
| Lists.List.InsertEnd | FreeRTOS/lib/FreeRTOS/list.c:74-100 | the item becomes the last one a walk from pxIndex reaches; everything else keeps its place, count and container are right |
| Lists.List.Scan | FreeRTOS/lib/FreeRTOS/list.c:122-155 | the scan terminates, and stops where the insertion point is; the portMAX_DELAY shortcut stops at the same node |
| Lists.List.Insert | FreeRTOS/lib/FreeRTOS/list.c:103-167 | on a sorted list the values become the sorted insertion of the new value, after all equal values |
| Lists.List.Remove | FreeRTOS/lib/FreeRTOS/list.c:170-198 | exactly that item leaves, pxIndex stays inside the list, the result is the new length |
| TimerRuns.ClassifyExact | FreeRTOS/lib/FreeRTOS/timers.c:647-685 | a command referring to true time c and executed at true time n, less than one tick range later, is told to run now iff c+p <= n, and otherwise lands in the current list iff c+p lies in the epoch of n, in the overflow list iff it lies in the next |
| TimerRuns.ClassifyAtTheBound | FreeRTOS/lib/FreeRTOS/timers.c:651-683 | the bound is tight: exactly one tick range late, the timer has expired and is never told so |
| TimerRuns.ChangePeriodNeverNow | FreeRTOS/lib/FreeRTOS/timers.c:785-797 | a change of period is never told to process now, so the result the code ignores is always false |
| TimerRuns.SwitchListsOk | FreeRTOS/lib/FreeRTOS/timers.c:835-891 | prvSwitchTimerLists keeps the lists sorted and in their epochs, adds no timer, sends at most one reload per timer, and leaves an empty overflow list |
| TimerRuns.SwitchListsOrder | FreeRTOS/lib/FreeRTOS/timers.c:846-886 | its callbacks are in nondecreasing expiry order and only for timers due before the epoch ended |
| TimerRuns.SwitchListsTracks | FreeRTOS/lib/FreeRTOS/timers.c:846-890 | a timer pending once for a true expiry before the switch is pending once for the right true expiry after it, whether reloaded into the list or by a command |
| TimerRuns.SampleTracks | FreeRTOS/lib/FreeRTOS/timers.c:624-644 | sampling the tick keeps every pending timer standing for the same true expiry, across a wrap |
| TimerRuns.LoopTopTracks | FreeRTOS/lib/FreeRTOS/timers.c:462-499 | so does a pass of the daemon over an expired timer, its callback included |
| TimerRuns.ReceiveTracks | FreeRTOS/lib/FreeRTOS/timers.c:688-832 | so does the execution of any command |
| TimerRuns.AutoReloadIsExact | FreeRTOS/lib/FreeRTOS/timers.c:462-891 | over every run, in which timers are created and commands for others posted at any time, by tasks, interrupts and callbacks: an auto-reload timer started at c with period p and left alone has callbacks for exactly c+p, c+2p, ... in turn, none early, none skipped or repeated, and is pending exactly once for the next |
| TimerRuns.CaughtUp | FreeRTOS/lib/FreeRTOS/timers.c:538-595 | when the daemon decides to wait at n with no command pending, every expiry up to n has had its callback |
| TimerRuns.NeverOversleeps | FreeRTOS/lib/FreeRTOS/timers.c:538-621 | it wakes no later than the earliest true expiry in either list, exactly then if the current list has one and at the wrap of the tick if not, and waits forever only when both are empty |
| TimerRuns.NeverIdles | FreeRTOS/lib/FreeRTOS/timers.c:538-595 | it goes on without waiting only if the tick has wrapped or it has called back the first timer of the current list |
| Timers.TimerDaemon.constructor | FreeRTOS/lib/FreeRTOS/timers.c:894-942 | empty lists, no sample yet |
| Timers.TimerDaemon.GenericCommand | FreeRTOS/lib/FreeRTOS/timers.c:381-421 | the command joins the queue |
| Timers.TimerDaemon.InsertTimerInActiveList | FreeRTOS/lib/FreeRTOS/timers.c:647-685 | classifies with the wrapped ticks of the code and inserts accordingly |
| Timers.TimerDaemon.ProcessExpiredTimer | FreeRTOS/lib/FreeRTOS/timers.c:462-499 | removes the head, reloads it by list or by command, calls back |
| Timers.TimerDaemon.SwitchTimerLists | FreeRTOS/lib/FreeRTOS/timers.c:835-891 | the loop terminates and does what TimerModel.SwitchLists says of the whole state |
| Timers.TimerDaemon.SampleTimeNow | FreeRTOS/lib/FreeRTOS/timers.c:624-644 | switches the lists exactly when the tick has wrapped, as TimerModel.Sample |
| TimerRuns.PostsAmongCallbacks | FreeRTOS/lib/FreeRTOS/timers.c:846-886 | commands that callbacks post between the callbacks of one switch leave the state that posts after the switch leave, with fewer commands ahead of them, which are events of the runs above |
| TimerRuns.OneShotIsExact | FreeRTOS/lib/FreeRTOS/timers.c:462-891 | over every run: a one-shot timer started likewise is pending exactly once, for c+p, until it has had exactly one callback, for c+p and not early, and is pending no more after it |
| TimerRuns.RestartIsExact | FreeRTOS/lib/FreeRTOS/timers.c:747-777 | over every run after a start or reset was executed for a timer in whatever state, with no other command for it queued: its callbacks are for exactly c+p, c+2p, ..., or once for c+p, whatever it was pending for before |
| TimerRuns.ChangeTakesEffect | FreeRTOS/lib/FreeRTOS/timers.c:785-797 | a change of period executed at true time n, with no other command for the timer queued: the timer has the new period p and is pending exactly once, for n+p |
| TimerRuns.ChangeIsExact | FreeRTOS/lib/FreeRTOS/timers.c:785-797 | over every run from there: its callbacks are for exactly n+p, n+2p, ..., or once for n+p |
| TimerRuns.StopIsFinal | FreeRTOS/lib/FreeRTOS/timers.c:722-829 | over every run after a stop or a deletion was executed, with no other command for the timer queued: no callback until it is started again |
| Timers.TimerDaemon.GetNextExpireTime | FreeRTOS/lib/FreeRTOS/timers.c:598-621 | as true times, nothing in either list is due before the answer; unless the current list is empty an entry is due exactly then, and if it is the answer is the next wrap of the tick, within one tick range |
| Timers.TimerDaemon.ProcessTimerOrBlockTask | FreeRTOS/lib/FreeRTOS/timers.c:538-595 | one expired timer is processed, or the task waits for the wrapped difference or without limit |
| Timers.TimerDaemon.TimerTaskPass | FreeRTOS/lib/FreeRTOS/timers.c:522-534 | one pass of the task: the decision of TimerModel.LoopTop, then the commands received one by one until there is none, the invariant of TimerRuns kept |
| Timers.TimerDaemon.ExecuteStart | FreeRTOS/lib/FreeRTOS/timers.c:747-777 | START and its relatives, with the callback and reload of a timer already expired |
| Timers.TimerDaemon.ExecuteCommand | FreeRTOS/lib/FreeRTOS/timers.c:740-829 | each command does what TimerModel.Execute says |
| Timers.TimerDaemon.ReceiveCommand | FreeRTOS/lib/FreeRTOS/timers.c:693-831 | one received command: the timer leaves its list, the tick is sampled, the command is executed |
| Timers.TimerDaemon.ProcessReceivedCommands | FreeRTOS/lib/FreeRTOS/timers.c:688-832 | the loop keeps the invariant of TimerRuns and is the sequence of single receptions |
| Queues.RingPushBack | FreeRTOS/lib/FreeRTOS/queue.c:2068-2080 | writing at the write pointer appends to the messages of the ring |
| Queues.RingPushFront | FreeRTOS/lib/FreeRTOS/queue.c:2081-2092 | writing at the read pointer and stepping it back prepends |
| Queues.RingPop | FreeRTOS/lib/FreeRTOS/queue.c:2125-2134 | stepping the read pointer on drops the head |
| Queues.Ring.constructor | FreeRTOS/lib/FreeRTOS/queue.c:247-298 | an empty queue whose read pointer is at the last slot |
| Queues.Ring.CopyDataToQueue | FreeRTOS/lib/FreeRTOS/queue.c:2042-2118 | the messages become those before followed by the new one, or the new one followed by those before, or for an overwrite on a queue of length 1 the new one alone; lock counts and waiting lists untouched |
| Queues.Ring.CopyDataFromQueue | FreeRTOS/lib/FreeRTOS/queue.c:2121-2136 | the head message, the read pointer now on its slot |
| Queues.Ring.SendSection | FreeRTOS/lib/FreeRTOS/queue.c:744-871 | succeeds iff there is room or it overwrites; then the message enters at the end, at the front or in place of the only one, and the first waiting receiver is woken; otherwise nothing changes; refines QueueModel.TrySend |
| Queues.Ring.ReceiveSection | FreeRTOS/lib/FreeRTOS/queue.c:1264-1326 | hands back the first message, removes it and wakes the first waiting sender, or nothing from an empty queue and changes nothing; refines QueueModel.TryReceive |
| Queues.Ring.PeekSection | FreeRTOS/lib/FreeRTOS/queue.c:1628-1697 | hands back the first message and leaves it, the read pointer put back, and wakes the next receiver; refines QueueModel.TryPeek |
| Queues.Ring.SendFromISR | FreeRTOS/lib/FreeRTOS/queue.c:923-1071 | as SendSection, but if the queue is locked nobody is woken and the int8_t lock count goes up by one, from 127 to -128; refines QueueModel.SendFromIsr |
| Queues.Ring.ReceiveFromISR | FreeRTOS/lib/FreeRTOS/queue.c:1752-1840 | as ReceiveSection, but if the queue is locked nobody is woken and the count goes up; refines QueueModel.ReceiveFromIsr |
| Queues.Ring.LockQueue | FreeRTOS/lib/FreeRTOS/queue.c:232-244 | both counts start from zero if the queue was unlocked, and are kept if not |
| Queues.Ring.UnlockTxSection | FreeRTOS/lib/FreeRTOS/queue.c:2147-2225 | wakes the first receivers, one per counted message while any waits, then unlocks |
| Queues.Ring.UnlockRxSection | FreeRTOS/lib/FreeRTOS/queue.c:2228-2255 | the same for senders |
| QueueProtocol.NoLostWakeUp | FreeRTOS/lib/FreeRTOS/queue.c:725-920 | in every reachable interleaving of any number of tasks and interrupts: while a receiver is blocked, messages <= woken receivers that have not retried + max(0, cTxLock); while a sender is blocked, free slots <= woken senders + max(0, cRxLock) |
| QueueProtocol.BlockedOnlyWhenStuck | FreeRTOS/lib/FreeRTOS/queue.c:1239-1378 | once the woken have retried and the queue is unlocked, a receiver is blocked only on an empty queue and a sender only on a full one |
| QueueProtocol.ApplyKeeps | FreeRTOS/lib/FreeRTOS/queue.c:2139-2256 | every step of a task or an interrupt keeps the counting invariant behind the two theorems |
| QueueProtocol.Fifo | FreeRTOS/lib/FreeRTOS/queue.c:2068-2134 | over every run that sends to the back: what the receives handed back, in order, followed by what is queued is what was sent |
| QueueProtocol.FrontIsNext | FreeRTOS/lib/FreeRTOS/queue.c:2081-2134 | a message sent to the front of a queue with room is what the next receive hands back, by whichever task or interrupt and whatever other steps come between, and the queue is as before |
| QueueProtocol.Conserved | FreeRTOS/lib/FreeRTOS/queue.c:2042-2134 | over every run that overwrites nothing: messages handed back and messages queued are together the messages sent |
| QueueBlocking.BlocksIffStuck | FreeRTOS/lib/FreeRTOS/queue.c:725-920 | from every reachable state with the queue unlocked, an operation with time to wait that nothing interrupts puts its task to sleep iff the queue is empty, or full for a send; then it is in the event list of its operation and nothing else has changed |
| QueueOverflow.OneMorePostLosesWakeUps | FreeRTOS/lib/FreeRTOS/queue.c:1037-1058 | a run from a new queue that stays within that bound, with a receiver blocked and 127 posts counted: one more post and the unlock wakes nobody, the receiver blocked on 128 messages with no count left |
| QueueProtocol.CountOverflowLosesWakeUps | FreeRTOS/lib/FreeRTOS/queue.c:1053-1058 | one interrupt more than 127 in a lock window wraps the count, and the unlock wakes nobody though receivers wait: the assumption on interrupts is needed |
| QueueSets.SetConservation | FreeRTOS/lib/FreeRTOS/queue.c:2848-2897 | over every run whose removals take effect on empty queues: handles of a member in the set + selections still to be received + max(0, cTxLock) = messages in the member, a queue outside the set has no handle in it, and the space assertion never fails |
| QueueSets.NotifyPays | FreeRTOS/lib/FreeRTOS/queue.c:2848-2897 | an owed notification always finds room and pays one message off |
| QueueSets.SelectedInOrder | FreeRTOS/lib/FreeRTOS/queue.c:2822-2897 | over every such run whose sends go to the back: the handles selected, in order, followed by those in the set are the handles posted |
| QueueSets.MessagesAccounted | FreeRTOS/lib/FreeRTOS/queue.c:2848-2897 | over every run: a member holds what it held, plus the sends that found room, minus the receives that found a message |
| QueueSets.AddedIff | FreeRTOS/lib/FreeRTOS/queue.c:2753-2779 | a queue joins a set iff it is empty and in no set |
| QueueSets.SelectedHasMessage | FreeRTOS/lib/FreeRTOS/queue.c:2822-2830 | the receive after a select always finds a message |
| QueueSets.QuietIsClean | FreeRTOS/lib/FreeRTOS/queue.c:2786-2815 | what a caller can arrange: if nobody posts to a queue between the test of xQueueRemoveFromSet and its critical section, every removal takes effect on an empty queue |
| QueueSets.RemovalIsCleanIff | FreeRTOS/lib/FreeRTOS/queue.c:2796-2811 | after any such run, the critical section leaves no handle of the queue behind iff every message in it is already selected, and keeps conservation iff the queue is empty |
| QueueSets.RemovalRace | FreeRTOS/lib/FreeRTOS/queue.c:2796-2811 | a run from a new set in which an interrupt posts between test and critical section, and the handle of a queue that is no longer a member stays in the set |
| RecursiveMutex.MutualExclusion | FreeRTOS/lib/FreeRTOS/queue.c:574-664 | over all interleavings down to single loads and stores of the call count: only the holder has takes outstanding, a holder at rest has count = takes - gives > 0, and the mutex is available iff nobody holds it |
| RecursiveMutex.GiveNeverFails | FreeRTOS/lib/FreeRTOS/queue.c:587-611 | the decrement never underflows and the send whose result is ignored always succeeds |
| RecursiveMutex.OnlyTheLastGiveReleases | FreeRTOS/lib/FreeRTOS/queue.c:574-625 | a give by the holder releases iff it matches the last outstanding take, and nothing anyone else does releases it |
| RecursiveMutex.TakeAlone | FreeRTOS/lib/FreeRTOS/queue.c:629-664 | a take succeeds iff the mutex is free or the caller's, and adds one to its depth |
| RecursiveMutex.GiveAlone | FreeRTOS/lib/FreeRTOS/queue.c:574-625 | a give succeeds iff the caller holds it, takes one off, and releases at zero |
| RecursiveMutex.MutexQueue.constructor | FreeRTOS/lib/FreeRTOS/queue.c:452-475 | a new mutex is available and held by nobody |
| RecursiveMutex.MutexQueue.TakeMutexRecursive | FreeRTOS/lib/FreeRTOS/queue.c:629-664 | run alone it is the sequence of steps TakeSteps |
| RecursiveMutex.MutexQueue.GiveMutexRecursive | FreeRTOS/lib/FreeRTOS/queue.c:574-625 | run alone it is the sequence of steps GiveSteps |
| EventModel.SetWakes | FreeRTOS/lib/FreeRTOS/event_groups.c:527-586 | a set unblocks exactly the waiting tasks that ask for what the raised value has, hands each that value, and keeps the others waiting |
| EventModel.SetLeaves | FreeRTOS/lib/FreeRTOS/event_groups.c:527-590 | a set leaves a bit iff it was there or is set, and no task it unblocks asked for it to be cleared |
| EventModel.WaitDoes | FreeRTOS/lib/FreeRTOS/event_groups.c:313-382 | a wait blocks iff it may and what it asks for is not there; otherwise it returns the value found, and the bits asked for are cleared iff they were there and it was to clear them |
| EventModel.TimeoutDoes | FreeRTOS/lib/FreeRTOS/event_groups.c:399-428 | after a time-out a wait returns what it finds and clears its bits iff they have come and it was to clear them |
| EventModel.SyncDoes | FreeRTOS/lib/FreeRTOS/event_groups.c:187-234 | a sync sets as a set does, is done iff all its bits are there then, returns the value before clearing, and clears them |
| EventModel.SetBitsWakesExactly | FreeRTOS/lib/FreeRTOS/event_groups.c:530-586 | the traversal splits the waiting tasks exactly by the raised value |
| EventModel.ClearMaskExactly | FreeRTOS/lib/FreeRTOS/event_groups.c:562-590 | a bit is cleared iff an unblocked waiter asked for it to be cleared |
| EventRuns.SetKeeps | FreeRTOS/lib/FreeRTOS/event_groups.c:504-595 | a set leaves nobody waiting for what is there |
| EventRuns.SyncKeeps | FreeRTOS/lib/FreeRTOS/event_groups.c:190-207 | nor does a sync, its own clearing included |
| EventRuns.NeverStranded | FreeRTOS/lib/FreeRTOS/event_groups.c:176-595 | in every reachable state no blocked task's condition holds of the current bits, and every unblocked task returns a value that satisfies its condition |
| EventWords.MaskTests | FreeRTOS/lib/FreeRTOS/event_groups.c:540-556 | the mask comparisons of the code decide subset and overlap of bit sets |
| EventWords.TestWaitCondition | FreeRTOS/lib/FreeRTOS/event_groups.c:656-690 | true iff the condition, on sets of bits, is met |
| EventWords.PackRoundTrip | FreeRTOS/lib/FreeRTOS/event_groups.c:351-372 | a request packed with its control bits into a list item value is unpacked unchanged, and never looks unblocked by a set |
| EventWords.DeliveredValue | FreeRTOS/lib/FreeRTOS/event_groups.c:574-580 | the value stored for an unblocked task is recognised, and the event bits come back unharmed |
| EventGroups.EventGroup.UnblockMatching | FreeRTOS/lib/FreeRTOS/event_groups.c:530-586 | the traversal that removes items while walking does what StillWaiting, Unblocked and ClearMask say of the whole list |
| EventGroups.EventGroup.SetBits | FreeRTOS/lib/FreeRTOS/event_groups.c:504-595 | on 32-bit words, EventModel.SetBits; bit by bit, what is left in the word |
| EventGroups.EventGroup.ClearBits | FreeRTOS/lib/FreeRTOS/event_groups.c:446-470 | EventModel.ClearBits; the old word is returned |
| EventGroups.EventGroup.WaitBits | FreeRTOS/lib/FreeRTOS/event_groups.c:296-382 | EventModel.WaitBits up to the point of blocking; when it blocks, what it returns and what it clears, bit by bit |
| EventGroups.EventGroup.Sync | FreeRTOS/lib/FreeRTOS/event_groups.c:176-234 | EventModel.Sync up to the point of blocking; when it blocks, what it returns and what it leaves, bit by bit |
| EventGroups.EventGroup.FinishWait | FreeRTOS/lib/FreeRTOS/event_groups.c:247-292 | the value delivered by a set without control bits, or after a time-out the word found, its bits cleared iff they have come and were to be cleared |
| Barrier.Rendezvous | FreeRTOS/lib/FreeRTOS/event_groups.c:176-293 | tasks that sync repeatedly, each with bits of its own, on the full mask without time-out: no task returns from its k-th sync before all have made their k-th call, and arrivals never differ by more than one, even if a fast task comes back before a released one has run |
| Barrier.NobodyLeftBehind | FreeRTOS/lib/FreeRTOS/event_groups.c:197-204 | all have called equally often iff nobody is blocked and no bit is left over |
| Barrier.CompleteKeeps | FreeRTOS/lib/FreeRTOS/event_groups.c:197-207 | the last arrival releases everyone, clears all bits and opens the next round |
| StreamModel.HeaderRoundTrip | FreeRTOS/lib/FreeRTOS/stream_buffer.c:664-669 | a length below the range of size_t survives being stored as four bytes |
| StreamModel.Counts | FreeRTOS/lib/FreeRTOS/stream_buffer.c:1121-1139 | the index arithmetic counts exactly the bytes held, and reading from the tail finds them |
| StreamMessages.WholeMessagesInOrder | FreeRTOS/lib/FreeRTOS/stream_buffer.c:639-688 | over every interleaving of one writer and one reader, byte by byte and at every update of head and tail: the reader is only given whole messages, in order and byte for byte, and between operations the buffer holds exactly the frames sent and not taken |
| StreamMessages.NoOverlap | FreeRTOS/lib/FreeRTOS/stream_buffer.c:1020-1118 | slots being or to be read and slots being or to be written never overlap |
| StreamMessages.TooSmallChangesNothing | FreeRTOS/lib/FreeRTOS/stream_buffer.c:860-887 | a receive with too small a buffer leaves tail, head and contents unchanged if no send falls in its window |
| StreamMessages.WindowOverstates | FreeRTOS/lib/FreeRTOS/stream_buffer.c:866-880 | inside that window the reported space is four bytes too large |
| StreamWindow.CarelessLosesData | FreeRTOS/lib/FreeRTOS/stream_buffer.c:866-881 | run to its end, a send accepted inside the window leaves the buffer holding exactly the messages sent and not taken iff it fits with four bytes to spare in the reported space, which the sender can test |
| StreamWindow.LosingRun | FreeRTOS/lib/FreeRTOS/stream_buffer.c:639-688 | for any first and second message that with their headers fill the storage, and any third that fits: a run from a new buffer with one such send, after which the reader is given the third message first and the other two are gone |
| StreamWindow.LosingRunOfTenSlots | FreeRTOS/lib/FreeRTOS/stream_buffer.c:639-688 | its smallest form, in ten slots |
| StreamBuffers.StreamBuffer.constructor | FreeRTOS/lib/FreeRTOS/stream_buffer.c:217-266 | empty, one byte more allocated than asked for, the trigger level asked for, or one if that is zero |
| StreamBuffers.StreamBuffer.BytesInBuffer | FreeRTOS/lib/FreeRTOS/stream_buffer.c:1121-1139 | the number of bytes held, with no overflow of size_t |
| StreamBuffers.StreamBuffer.SpacesAvailable | FreeRTOS/lib/FreeRTOS/stream_buffer.c:451-472 | bytes held + space = length - 1 |
| StreamBuffers.StreamBuffer.WriteBytes | FreeRTOS/lib/FreeRTOS/stream_buffer.c:1020-1063 | the two-part copy appends exactly the data |
| StreamBuffers.StreamBuffer.ReadBytes | FreeRTOS/lib/FreeRTOS/stream_buffer.c:1066-1118 | the two-part copy takes exactly the first bytes, as many as wanted and available |
| StreamBuffers.StreamBuffer.WriteMessage | FreeRTOS/lib/FreeRTOS/stream_buffer.c:639-688 | a whole frame or nothing; for a stream buffer as many bytes as fit |
| StreamBuffers.StreamBuffer.ReadMessage | FreeRTOS/lib/FreeRTOS/stream_buffer.c:852-899 | the whole next message, or nothing and nothing moved if it does not fit; for a stream buffer as many bytes as wanted and available |
| StreamBuffers.StreamBuffer.Send | FreeRTOS/lib/FreeRTOS/stream_buffer.c:588-636 | what is stored, and a waiting reader is notified iff the trigger level is reached |
| StreamBuffers.StreamBuffer.Receive | FreeRTOS/lib/FreeRTOS/stream_buffer.c:795-849 | what is taken, and a waiting writer is notified iff something was |
| StreamBuffers.StreamBuffer.SetTriggerLevel | FreeRTOS/lib/FreeRTOS/stream_buffer.c:422-448 | levels up to the length are accepted, zero counts as one |
| StreamHandshake.NoLostWakeUp | FreeRTOS/lib/FreeRTOS/stream_buffer.c:511-577 | over every run, stray and stale notifications included: a reader waiting without a notification while no send is in flight faces fewer bytes than the trigger level, and a writer waiting without one while no receive is in flight faces too little space |
| StreamAlone.SendAlone | FreeRTOS/lib/FreeRTOS/stream_buffer.c:487-585 | a send with time to wait that nothing interrupts stores all its data iff there is room, and notifies a registered reader iff the trigger level is reached; if there is no room it waits, registered, having stored nothing |
| StreamAlone.ResumesAlone | FreeRTOS/lib/FreeRTOS/stream_buffer.c:536-561 | a waiting send that was notified looks again and stores its data iff there is room now |
| StreamAlone.ReceiveAlone | FreeRTOS/lib/FreeRTOS/stream_buffer.c:691-792 | a receive with time to wait that nothing interrupts waits, registered, iff there is nothing to receive; otherwise it takes what fits and notifies a registered writer iff it took anything |
| StreamHandshake.BothStuckOnlyIfTooBig | FreeRTOS/lib/FreeRTOS/stream_buffer.c:521-540 | writer and reader wait for each other only if the data could not fit beside the bytes the reader leaves unread |
| StreamHandshake.RegistersOnce | FreeRTOS/lib/FreeRTOS/stream_buffer.c:530-532 | the assertions that nobody is registered already never fail |
| StreamHandshake.TriggerChange | FreeRTOS/lib/FreeRTOS/stream_buffer.c:422-448 | from a change of the trigger level on, every run keeps the promise of NoLostWakeUp to the reader and the writer, unless at the change a reader waits without a notification on that many bytes with no send in flight, and then it is broken at once |
| StreamHandshake.LevelReachedIff | FreeRTOS/lib/FreeRTOS/stream_buffer.c:437-437 | some run holds as many bytes as a level iff the level is at most the length minus one, while the code accepts the length |
| StreamHandshake.StuckOnFullBuffer | FreeRTOS/lib/FreeRTOS/stream_buffer.c:422-448 | with the level at the length, a run to a reader that waits without notification on a full buffer, no send in flight, and waits on in every such run from there |
| StreamHandshake.TooHighNeverNotifies | FreeRTOS/lib/FreeRTOS/stream_buffer.c:565-577 | with such a level a waiting reader waits on in every run without outside notifications, time-outs and level changes, whatever is sent |
| PrintfFacts.DigitsDenote | middleware/printf/printf.c:291-298 | the digits produced denote the value modulo base^room, and there are at most room of them |
| PrintfFacts.DigitsExactIff | middleware/printf/printf.c:291-298 | they denote the value itself iff it is below base^room |
| PrintfFacts.LongDigits | middleware/printf/printf.c:281-301 | every 32-bit value in every base fits the 32-byte buffer and is denoted exactly |
| PrintfFacts.LongLongDigits | middleware/printf/printf.c:306-326 | a 64-bit value fits the buffer and is denoted exactly iff the base is not 2 or the value is below 2^32 |
| PrintfRoundTrip.AtoiReads | middleware/printf/printf.c:188-195 | _atoi accumulates, modulo 2^32, the number its digits denote |
| PrintfRoundTrip.AtoiOfDecimal | middleware/printf/printf.c:188-195 | _atoi of the plain decimal output of a 32-bit value is the value, whatever follows |
| PrintfRoundTrip.PlainUnsigned | middleware/printf/printf.c:577-857 | %u prints that decimal text |
| PrintfUnmarked.UnmarkedIff | middleware/printf/printf.c:227-277 | without a marker _ntoa_format lays sign, zeros, digits and blanks out as prescribed iff no zeros are asked for beside - and sign, zeros and digits fit 32 characters, or only a blank is lost to padding |
| PrintfMarked.ConformsIff | middleware/printf/printf.c:227-327 | for every value, width, precision and set of flags, # included: the text is the one section 7.21.6.1 of ISO/IEC 9899:2011 prescribes iff Agrees holds, among others that a marker finds padding zeros to replace |
| PrintfDirectives.FlagsRead | middleware/printf/printf.c:601-612 | the flag characters of any directive are all read, and reading stops behind them |
| PrintfDirectives.FlagsMean | middleware/printf/printf.c:601-612 | each mark is set by its flag character and by no other, in any order and number |
| PrintfDirectives.NumberRead | middleware/printf/printf.c:188-195 | a number written in decimal is read as that number modulo 2^32 |
| PrintfDirectives.WidthRead | middleware/printf/printf.c:614-629 | whatever stands for the width, the standard's width and - flag come out of it: the number written, none, or the argument of *, a negative one meaning - and its absolute value; only INT_MIN is undefined |
| PrintfDirectives.PrecisionRead | middleware/printf/printf.c:631-644 | the precision written, zero for a lone period, none, or the argument of *, of which a negative one counts as zero and not, as in the standard, as omitted |
| PrintfDirectives.LengthRead | middleware/printf/printf.c:646-679 | each length modifier sets the flags of its type, and nothing is taken for one that is not |
| PrintfDirectives.DirectiveRead | middleware/printf/printf.c:598-679 | so every directive, written out, is parsed to the conversion character with flags, width, precision and arguments as meant |
| PrintfDirectives.DirectiveConformsIff | middleware/printf/printf.c:598-756 | for every integer directive and argument: the output is the text the standard prescribes for the directive as written and the word passed iff PrintedAsPrescribed holds: width and value can be negated, hh misses no sign, and Agrees |
| PrintfDirectives.OrdinaryConforms | middleware/printf/printf.c:684-756 | in particular every 32-bit integer directive without #, %b, signed hh, negative precision or precision beside - prints every value but INT_MIN as prescribed, for precisions below 32 and zero-filled widths up to 32 |
| PrintfStrings.StringConformsIff | middleware/printf/printf.c:796-820 | for every %s directive, with the flags the standard allows and no length modifier, and every string: as prescribed iff the width can be negated and a negative precision hides nothing but blanks that padding puts back |
| PrintfStrings.SeesFirst | middleware/printf/printf.c:796-820 | a pointer to a wide string, taken for a pointer to bytes, shows its first character and no more |
| PrintfStrings.WideConformsIff | middleware/printf/printf.c:646-655 | so for every %ls directive and wide string of basic characters: as prescribed iff the width can be negated and what the precision leaves has at most one character, or looks like its first one, being blank otherwise and padded |
| PrintfStrings.CharConformsIff | middleware/printf/printf.c:776-794 | every %c directive prints its argument as an unsigned char, padded as prescribed, iff the width can be negated |
| PrintfStrings.PaddedIsJustified | middleware/printf/printf.c:776-820 | %c and %s are padded with blanks to the width, on the side the - flag says |
| PrintfOutput.PlainText | middleware/printf/printf.c:590-595 | a text without % prints itself, and before any format prints itself and then what that prints |
| PrintfOutput.InSequence | middleware/printf/printf.c:587-849 | a format that uses up its arguments, followed by any other, prints what it prints and then what the other prints with the arguments that follow |
| PrintfPieces.InOrder | middleware/printf/printf.c:587-849 | so pieces in any order and number print one after another, each with its own arguments |
| PrintfPieces.PlainPrints | middleware/printf/printf.c:590-595 | text without % is such a piece |
| PrintfPieces.IntegerPrints | middleware/printf/printf.c:684-756 | every integer directive that meets PrintedAsPrescribed is one, printing what the standard prescribes |
| PrintfPieces.StringPrints | middleware/printf/printf.c:796-820 | so is every %s directive without a negative precision |
| PrintfPieces.CharPrints | middleware/printf/printf.c:776-794 | so is every %c directive |
| PrintfPieces.PointerPrints | middleware/printf/printf.c:822-838 | %p is one, printing the address as %08X would |
| PrintfPieces.OtherPrints | middleware/printf/printf.c:840-849 | so is a % before any character that is no field and no conversion, printing that character |
| PrintfPieces.PercentPrints | middleware/printf/printf.c:840-843 | %% prints a percent sign |
| PrintfPieces.NameAndNumber | middleware/printf/printf.c:587-849 | for instance a name followed by %u prints the name and the number |
| PrintfFormats.SkipsFields | middleware/printf/printf.c:601-679 | the characters between a % and where the code looks for the conversion are flags, width, precision and length |
| PrintfFormats.LongestIs | middleware/printf/printf.c:601-679 | and as many of them as there are: that place is behind the longest run of fields |
| PrintfFormats.InsideIff | middleware/printf/printf.c:587-849 | the index of the format loop meets the terminator at the top of the loop, and never passes it, iff every % is followed by fields and one more character |
| PrintfFormats.OutputIff | middleware/printf/printf.c:587-849 | a format has arguments that give an output iff its index stays inside and it asks for no floating-point conversion; so a missing output means nothing else about a format |
| PrintfFormats.PercentAtTheEnd | middleware/printf/printf.c:845-848 | on 100% the index passes the terminator |
| PrintfDeviations.MarkerCutsDigits | middleware/printf/printf.c:242-262 | %#08x of 0x12345678 prints 0x345678, the standard 0x12345678 |
| PrintfDeviations.NegativePrecisionHidesZero | middleware/printf/printf.c:631-644 | %.*d of 0 with precision -1 prints nothing, the standard 0 |
| PrintfDeviations.SignMissedByHh | middleware/printf/printf.c:738-739 | %hhd of -1 prints 255, the standard -1 |
| PrintfDeviations.LeftDropsZeros | middleware/printf/printf.c:229-240 | %-.3d of 5 prints 5, the standard 005 |
| PrintfDeviations.OctalZeroMissing | middleware/printf/printf.c:281-301 | %#.0o of 0 prints nothing, the standard 0 |
| PrintfDeviations.OctalZeroTwice | middleware/printf/printf.c:242-262 | %#.5o of 8 prints 000010, the standard 00010 |
| PrintfDeviations.BufferCutsZeros | middleware/printf/printf.c:229-240 | %.40d of 1 prints 31 zeros and the digit, the standard 39 |
| PrintfDeviations.WideStringCut | middleware/printf/printf.c:796-820 | %ls of a wide hi prints h, the standard hi |
| Printf.Out | middleware/printf/printf.c:133-138 | a character past the size is counted and not stored |
| Printf.OutRev | middleware/printf/printf.c:199-223 | writes Field of the reversed buffer, cut off at the size, and counts all of it |
| Printf.FillZeros | middleware/printf/printf.c:234-239 | zeros up to the wanted length, never past the buffer |
| Printf.NtoaFormat | middleware/printf/printf.c:227-277 | writes Formatted and never runs over the conversion buffer |
| Printf.StoreDigits | middleware/printf/printf.c:291-298 | the loop stores the reversed digits and never runs over the buffer |
| Printf.Ntoa | middleware/printf/printf.c:281-327 | writes Number |
| PrintfDriver.EvaluateFlags | middleware/printf/printf.c:601-612 | reads the flags |
| PrintfDriver.ReadNumber | middleware/printf/printf.c:188-195 | reads a number modulo 2^32 |
| PrintfDriver.OutString | middleware/printf/printf.c:796-820 | writes at most precision characters, padded |
| PrintfDriver.OutChar | middleware/printf/printf.c:776-794 | writes one character, padded |
| PrintfDriver.DoDirective | middleware/printf/printf.c:598-849 | one directive: its text is written, its arguments consumed, or it is undefined |
| PrintfDriver.Vsnprintf | middleware/printf/printf.c:577-857 | for every format, argument list and size: the returned length is that of the unlimited output, the buffer holds its first min(length, size - 1) characters and a NUL, and nothing past the NUL is touched |
| Crc.TableHolds | utils/deltaupgmcu.py:47-100 | every entry of the table is its index times x^32 modulo the generator |
| Crc.TableStep | utils/deltaupgmcu.py:124-127 | one table step is eight steps of feeding a bit |
| Crc.DivisionFeeds | utils/deltaupgmcu.py:121-133 | long division of the bits times x^32 is feeding them one by one |
| Crc.Memcrc | utils/deltaupgmcu.py:121-133 | for every byte string the result is the complement of the remainder of the data and its length bytes, times x^32, on bit-by-bit division by 0x04C11DB7: cksum of POSIX.1-2017 Shell & Utilities section 3 |
| SendFw.HexRoundTrip | utils/deltaupgmcu.py:256-258 | the hex digits sent are twice as many as the bytes and read back to them |
| SendFw.ChunkSizes | utils/deltaupgmcu.py:246-254 | every chunk but the last is full, and none is empty |
| SendFw.PlanDelivers | utils/deltaupgmcu.py:245-279 | the commands of a complete transfer carry the file after the interim map byte for byte, each gives the number of its hex digits, which is positive and at most twice the chunk size, and exactly the last one says that nothing follows |
| SendFw.SendChunks | utils/deltaupgmcu.py:245-289 | the loop sends a prefix of that plan, stops at the first command not acknowledged, and succeeds iff all were sent and acknowledged |
| SendFw.Send | utils/deltaupgmcu.py:206-292 | each outcome and the commands sent for it: too small a file raises an error before anything is sent, a refused map and a one-byte image end after the map |

## Left out

- Delayed lists, priorities and scheduling order (`tasks.c`): tasks block, are woken from the head of a list and time out in any order; who runs next is open.
- The lists inside timers, queues and event groups are sequences, not the heap lists of `Lists`, so sharing of nodes between lists is modelled only in `Lists`.
- Unlike the list code, event list items of queues are not sorted by task priority: the woken task is the first of a sequence into which a task enters anywhere.
- Item size: a queue slot holds one value; byte copies of items, and semaphores' absent storage, are not modelled (a semaphore is a queue of values nobody looks at).
- xQueueGenericReset of a queue in use, overwriting sends on set members, and deleting or suspending a woken task, which the wake-up and conservation invariants exclude.
- xQueuePeekFromISR, xQueueSemaphoreTake's priority inheritance and the co-routine variants.
- Queue registry, trace numbers, static versus dynamic allocation and all deletion.
- Queues.Ring.constructor: does not model xQueueGenericReset waking a blocked sender.
- Timers.TimerDaemon.GenericCommand: does not model a full timer queue, which the code asserts away for reloads and reports to other callers.
- Timers.TimerDaemon.ExecuteCommand: deletion does not free the timer, and a pended function call has no effect on the daemon's own state.
- Event group delete and the calls pended from interrupts, which run the same functions in the daemon.
- Queues.Ring.CopyDataToQueue: an item size of zero stores nothing, and releases the holder of a mutex; the latter is in RecursiveMutex, without priorities.
- Queues.Ring.UnlockTxSection: the branch for a member of a queue set is in QueueSets, not in this method.
- RecursiveMutex.MutexQueue.TakeMutexRecursive: takes with no block time; blocking is in the steps of RecursiveMutex and, for queues in general, in QueueProtocol.
- EventGroups.EventGroup.SetBits: the word is read at the end of the operation, not after the scheduler has been resumed.
- xStreamBufferReset, and interrupts reading or writing a stream buffer beside a task on the same side.
- QueueSets.SetConservation: holds for runs in which removals take effect on empty queues, as they do if nobody posts to a queue being removed; RemovalIsCleanIff says what the others leave behind.
- StreamMessages.WholeMessagesInOrder: holds for runs whose sends in the window of a too small receive are careful; StreamWindow shows what any other does.
- StreamMessages.NoOverlap: likewise.
- StreamHandshake.NoLostWakeUp: the receive that does not fit is one step there; its window is treated in StreamMessages.
- StreamBuffers.StreamBuffer.Send: a length that overflows when the header is added is excluded, as the code does not test for it.
- PrintfDriver.Vsnprintf: output longer than 2^32 characters, where idx would wrap, null string arguments, floating-point conversions, INT_MIN and LLONG_MIN in signed conversions and as width, and arguments of the wrong size are outside the model or undefined; `_putchar` and function output differ from the buffer only in where a character goes.
- PrintfDirectives.DirectiveConformsIff: %b, which the standard of 2011 does not have, is compared with the conversion that ISO/IEC 9899:2024 adds under that name; # with d, i and u, which the standard leaves undefined, is compared with the conversion without it.
- PrintfStrings.StringConformsIff: # and 0 with %s, and length modifiers other than l, are undefined in the standard and not compared; %p with flags or a precision is modelled and not compared.
- PrintfStrings.WideConformsIff: the wide strings are of characters below 0x80, which every locale encodes as themselves, stored with the low byte first as on ARM.
- SendFw.Send: the serial line is a function that says which commands are acknowledged; retries, text of the commands around the hex digits and progress output are not modelled.
- The rest of `deltaupgmcu.py`, `middleware/sfplogger`, `middleware/miniconsole`, `middleware/lwip` and the drivers: user interface, device access or constants from headers that are not part of this model.
