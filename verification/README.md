# Verified models of libproc

libproc is a satellite process library in C. This project models its hard parts in Dafny and proves what they
keep over every input, every interleaving and every run. `dafny verify dfyconfig.toml` checks all of it.

| module | what it models |
|---|---|
| `GlobalClock` | the virtual clock shared by several processes (globalTimer.c) as a transition system, and the code that changes the shared region |
| `Critical` | crash-tolerant critical state (critical.c): saves, failed writes, crashes, bit rot, reloads and cleanups over an abstract disk |
| `CriticalSaves` | what a whole save, boot and shutdown leave on disk and in memory |
| `PriorityQueue` | the array heap with back-pointers (priorityQueue.c) |
| `QueuePaths` | which way entries take through the heap, ties included |
| `Scheduler`, `Timeval` | timed events in their heaps, and the virtual clock that drives them (events.c, eventTimer.c) |
| `Accounts` | where every event is, and the count of critical ones, over every run |
| `VirtualClock` | what is called when, over every run |
| `EventEffects` | what each step does to the events, told without the queues |
| `TimedQueues` | a heap of timed events, each found through its own entry (events.c over priorityQueue.c) |
| `EventLoop` | the event handler over two such queues, and the loop that drains them, with callbacks that use the interface (events.c) |
| `LoopProgress` | what the loop gets done, turn by turn, and when it exits |
| `FdTable` | file descriptor events, their buckets and indexes, and dispatch with callbacks that change the table (events.c) |
| `FdEffects` | what its operations mean for the sets the loop waits on |
| `CleanupDir` | the streaming keep-newest-K pass (util.c), a client of the heap |
| `Xdr`, `XdrCode` | the table-driven XDR coders (xdr.c): format, round trip, size reporting; the loops over buffers; the callers that retry (ipc.c, cmd.c) |
| `XdrWire` | the bytes on the wire, told without the coders, and the input that is refused |
| `XdrDict` | the sorted hash dictionary of xdr.c and its coders |
| `XdrDictWire` | order, hash and bytes of dictionaries, and what a decoder keeps of broken input |
| `Bitfield` | bitfield structures of xdr.c |
| `Md5` | MD5 streaming and padding (md5.c) |
| `Zmtp` | the ZMTP stream parser (zmqlite.c) over the growing buffer of ipc.c |
| `ZmtpOutcome` | what becomes of any byte stream a peer may send |
| `Requests` | the registry of pending requests (cmd.c), with its timers among the timed events |
| `RequestEffects` | where requests stand in the list, and when they time out |
| `Common` | what several modules need |

Code that works step by step is imperative here too: a class or a method with loops, whose postcondition ties
the new state to a function of the old one. The properties are lemmas about those functions, or invariants that
every operation keeps. Interleavings and crashes are sequences of atomic steps of a state machine.

## Where the code departs from what one would expect

Each of these is stated as a lemma or an if-and-only-if.

- Global clock, who is active and who is late. A waiting process is never marked active (`QuietForever`), because the publisher's
  scan marks the one process it finds. So a publish finds only the publisher, sets the shared time to the
  publisher's own wake time and posts one token (`QuietScan`); it finds the smallest wake time of all processes
  if and only if the publisher has it (`PublishFindsMinimumIff`). So a process is resumed by its check if and only
  if its wake time is not after the last published time, and on time if and only if that is its wake time
  (`ResumedOnTimeIff`); `LateWakeUp` is a run in which one is resumed later than it asked. The exact-order theorem (`ResumeTimesIncrease`) holds for all-active systems, which
  a fresh region reaches with one process only (`OrderedOnlyAlone`). A leaving process always counts zero others
  (`LeaverCountsNobody`), so it destroys the semaphores while others wait on them (`AbandonedWaiter`,
  globalTimer.c:199-215).
- Global clock, joining. The comment at globalTimer.c:45-48 says that a joiner's clock is synchronised; the code at
  globalTimer.c:174-178 does not do it. `StalledByJoiner` is a deadlock that follows; without publishing into the
  past there is none (`ConsiderateRunsDoNotStall`). Whenever nobody owns the mutex, the waiters can come to a stall
  if and only if nobody past the barrier is due and there is no token, or somebody to waste it (`StallIff`).
- Critical state, first read. The state in memory starts as zeros with a digest of zeros, which is not its digest. A
  read fails if and only if the copy in memory does not pass its checksum and the disk shows no intact entry
  (`ReadBack`), as it does after a first boot (`FirstReadFails`).
- Heap removal. Removing the entry in the last slot under a parent of the same priority takes out the parent
  (`PQueue.Remove`, `RemovedMeans`). For timed events: a removal keeps the account if and only if the event is not in
  the last slot of its queue, below the root, under a parent of the same time (`Accounts.RemoveAccountedIff`); it is
  enough that no other event of the queue has its time (`UntiedRemoval`). `TiedRemoval` is the smallest case: of two
  events added with the same delay the earlier one is removed, stays queued though freed, and the later one is lost.
- Timers of requests. A response removes the timer of its request with that removal, so the books of the registry
  survive it if and only if the timer is not so tied (`Requests.CompletionIff`); a timeout no other event shares is
  enough (`UntiedTimer`). `TiedTimers` is an ordinary case: two requests sent at one instant with the same timeout,
  and a response to the earlier one. The later one can then no longer time out, and a freed event is left to fire.
- Rescheduling. EVT_sched_update stores the new time before it asks the heap to change it, so a queued event can
  only move up. The queue stays a heap if and only if the new time is no later than those of the children of the
  event's slot (`PQueue.StoreThenChange`, `Accounts.RescheduleAccountedIff`, `LateReschedule`).
- Responses. A response whose body does not decode completes its request without calling it back, unless the
  callback is raw (`Requests.CalledUnlessDropped`, `DroppedResponse`).
- Strings in a sizing pass. The string encoder does not look at the null destination; the pass writes through it
  if and only if a non-empty string fits the limit it was given (`Xdr.SizingPass`, `Xdr.SizeReported`), as a
  one-byte string behind three hundred words does in the first 1024 bytes (`Xdr.StringBehindOverflow`).
- Long strings. The string coders add length and padding in 32 bits; the sum is right if and only if the string is at
  most 2^32 - 4 bytes long (`Xdr.TextSizeIff`).
- Dictionaries in a buffer that is too small stop the program, if and only if the table without its last entry
  already overflows (`XdrDict.TableOutcome`), as with two entries and room for their number only (`SecondKeyStops`).
- Descriptor dispatch. The loop keeps the address of its predecessor's next field during a callback. If the
  callback frees that predecessor the loop reads freed memory, and in no other case (`FdTable.Table.Dispatch`,
  `FdTable.NeighbourRemoved`). Single-stepping a parked descriptor event that is removed with its last callback
  unlinks it from the debugger's slot and not from its bucket: the table stays consistent if and only if the node
  is not freed (`FdTable.Table.StepSlot`, `FdTable.StepLeavesFreedNode`).

## Model

| member | source | states |
|---|---|---|
| `GlobalClock.RunKeepsInv` | globalTimer.c:167-338 | over every interleaving of joins, publishes, posts, releases, barrier passes, checks and exits: the mutex count plus the number of owners is 1, rows agree with their owners' phases, every active waiter's wake time is at least the shared time |
| `GlobalClock.StepKeepsInv` | globalTimer.c:167-338 | each single step keeps that invariant |
| `GlobalClock.PublishKeepsInv` | globalTimer.c:252-286 | publishing keeps the invariant, the scan finds somebody (the assertion at line 268), and the shared time goes back exactly when the published time lies in its past |
| `GlobalClock.CheckKeepsInv` | globalTimer.c:314-328 | the check after the barrier keeps the invariant, whether it resumes or goes back to the barrier |
| `GlobalClock.ExitKeepsInv` | globalTimer.c:185-210 | leaving keeps the invariant |
| `GlobalClock.PublishMeans` | globalTimer.c:252-279 | in any state the shared time becomes the earliest wake time of the active rows, the publisher's new one among them; the first such row is marked inactive, one token per active row is due, no other row changes |
| `GlobalClock.ExitMeans` | globalTimer.c:189-204 | a leaver owes one token to each other active row, and changes no other row |
| `GlobalClock.SoleOwner` | globalTimer.c:249-338 | while one process owns the mutex no other does and the semaphore is 0 |
| `GlobalClock.OnlyOwnersWrite` | globalTimer.c:272-274 | only a publishing owner changes the shared time or a foreign row; a turn that began at the barrier sees one shared time throughout, equal to its local clock |
| `GlobalClock.ClockGoesBackIff` | globalTimer.c:255-272 | the shared time decreases in a step if and only if the step publishes a time before it |
| `GlobalClock.ClockNeverGoesBack` | globalTimer.c:174-178 | over runs whose published times are never in the past, across joins, exits and ties, the shared time never decreases |
| `GlobalClock.OrderedStep` | globalTimer.c:252-328 | fixed membership, all active, distinct future times: every step keeps exactly one next process, and only a publish moves the time, forward |
| `GlobalClock.ResumedIsEarliest` | globalTimer.c:318-327 | whoever is resumed has the strictly smallest pending time and its clock shows the time it asked for |
| `GlobalClock.ResumeTimesIncrease` | globalTimer.c:252-328 | the resume times of every such run strictly increase |
| `GlobalClock.QuietScan` | globalTimer.c:257-279 | when no waiter is active the scan finds only the publisher, who sets the time to its own and posts one token; a leaver posts none |
| `GlobalClock.QuietForever` | globalTimer.c:174-178 | from a fresh region no waiter is ever active |
| `GlobalClock.PublishFindsMinimumIff` | globalTimer.c:257-272 | a publish makes the shared time the smallest of all live wake times if and only if the publisher has the smallest |
| `GlobalClock.OrderedOnlyAlone` | globalTimer.c:260-274 | the all-active states of the exact-order theorem are reachable from a fresh region with one process only |
| `GlobalClock.SuppliedForever` | globalTimer.c:276-279 | barrier tokens cover the waiters over every run without past times |
| `GlobalClock.ConsiderateRunsDoNotStall` | globalTimer.c:307-328 | in such runs some process already in the system can always move, and nobody through the barrier is sent back |
| `GlobalClock.LateWakeUp` | globalTimer.c:260-274 | a run in which `now + 10` and then `now + 20` are published and the first is resumed ten units late |
| `GlobalClock.ResumedOnTimeIff` | globalTimer.c:318-327 | over every run a check resumes if and only if the wake time is not after the last published time, with the clock at that time, on time if and only if it is the wake time |
| `GlobalClock.CurrIsLastPublished` | globalTimer.c:270-274 | over every run the shared time is the last published one |
| `GlobalClock.LeaverCountsNobody` | globalTimer.c:189-215 | a leaving process counts no active process, whoever is there, which is when the semaphores are destroyed |
| `GlobalClock.AbandonedWaiter` | globalTimer.c:189-215 | a run in which that happens with a process waiting at the barrier |
| `GlobalClock.StalledByJoiner` | globalTimer.c:308-324 | a run in which one waiter spends two tokens and nobody can move |
| `GlobalClock.StallIff` | globalTimer.c:307-328 | after any run from a fresh region that leaves nobody owning the mutex and somebody alive: the waiters alone can reach a state in which nobody in the system can move if and only if nobody past the barrier is due and either no token is left or the time of some live process has not come |
| `GlobalClock.SharedMemory.ScanTable` | globalTimer.c:258-268 | the loop computes the first smallest active row and the number of active rows |
| `GlobalClock.SharedMemory.PublishTime` | globalTimer.c:252-279 | records the wake time, sets the shared time to the smallest active one, marks that row inactive and has one token per active row to post |
| `GlobalClock.SharedMemory.CleanupSharedState` | globalTimer.c:189-204 | the row is inactive and dead, with one token per remaining active row to post |
| `Critical.CrashAtomicity` | critical.c:100-255 | after any run of saves, failed or torn writes, failed unlinks, cleanups, crashes at any point, reloads and bit rot, and any listing order, loading yields an attempted save at least as new as the last acknowledged one, with its bytes if it has its version |
| `Critical.ReadBack` | critical.c:344-375 | reading fails if and only if the copy in memory does not pass its checksum and the disk shows no intact entry, which implies that nothing was ever acknowledged; otherwise it returns such an entry |
| `Critical.FirstReadFails` | critical.c:257-275 | the first read after a boot on an empty disk fails |
| `Critical.LoadTakes` | critical.c:244-255 | loading takes an entry if and only if the disk shows one |
| `Critical.RunInv` | critical.c:52-342 | the invariant behind it holds in every reachable state |
| `Critical.StepInv` | critical.c:52-342 | each step keeps it |
| `Critical.CloseInv` | critical.c:127-136 | making a file current with four copies, and starting a cleanup every seventh time, keeps it |
| `Critical.SweepOneInv` | critical.c:89-96 | deleting one old file keeps it |
| `Critical.CrashInv` | critical.c:117-127 | a crash in the middle of anything keeps it |
| `Critical.RotInv` | critical.c:117-125 | damage to records keeps it as long as an intact copy of the newest entry is left, in a current file of a live process and in the file being written if no family holds it yet |
| `Critical.LoadFinds` | critical.c:244-255 | loading finds the newest intact entry of both families, wherever it is, and makes a file that has it current |
| `Critical.LoadFileMeaning` | critical.c:171-204 | a file contributes its newest readable entry, ties counting as hits |
| `Critical.LoadDirectoryMeaning` | critical.c:206-242 | a family contributes its newest entry whatever the listing order, and the current file holds it |
| `Critical.CSState.LoadCriticalStateFile` | critical.c:171-204 | the read loop folds that over the file up to a short record |
| `Critical.CSState.LoadCriticalStateDirectory` | critical.c:206-242 | the directory loop folds that over the listing and remembers the last file with a hit |
| `Critical.CSState.LoadCriticalState` | critical.c:244-255 | from version 0 over both families, which `LoadFinds` characterises |
| `CriticalSaves.SaveOutcome` | critical.c:300-342 | over every save that ends without a crash or rot: it is acknowledged if and only if the first family could be written; then that family's current file is new and four copies of the caller's bytes padded with zeros, and so is the second's, unless it could not be written: then its current file is the old one and the state is dirty |
| `CriticalSaves.SaveLeaves` | critical.c:100-137 | the whole disk after a save when directories open and files unlink: one new file of four copies per family written, the old files gone every seventh time, families that failed as they were |
| `CriticalSaves.BootLeaves` | critical.c:257-275 | a boot has the newest entry of the disk in memory, and leaves only the current file of each family |
| `CriticalSaves.ShutdownLeaves` | critical.c:277-298 | so does a shutdown |
| `CriticalSaves.LastHit` | critical.c:206-242 | the current file is the last one listed that shows the newest version |
| `CriticalSaves.SavedIsRead` | critical.c:344-383 | after every run, a save that was acknowledged is read back, with its version and not dirty, even if the second family failed or the copy in memory was damaged since |
| `PriorityQueue.BubbledOrdered` | priorityQueue.c:75-92 | bubbling up restores the order when the value is no larger than the children of its slot |
| `PriorityQueue.PercolatedOrdered` | priorityQueue.c:111-128 | percolating down restores it when the value is no smaller than the parent |
| `PriorityQueue.InsertedMeans` | priorityQueue.c:131-155 | insertion adds exactly the entry |
| `PriorityQueue.PoppedMeans` | priorityQueue.c:189-202 | popping takes out exactly the root |
| `PriorityQueue.RemovedMeans` | priorityQueue.c:175-186 | removal takes out exactly the entry of the victim's slot: its own, or its parent's when tied in the last slot |
| `PriorityQueue.RemovedOrdered` | priorityQueue.c:175-186 | and keeps the order |
| `PriorityQueue.ChangedMeans` | priorityQueue.c:158-172 | a stored priority bubbled up changes that one priority and no entry |
| `PriorityQueue.BubbleAloneIff` | priorityQueue.c:75-92 | bubbling up alone restores it if and only if the value is no larger than the children |
| `PriorityQueue.RootIsMinimum` | priorityQueue.c:205-213 | parent <= child everywhere makes the root a minimum |
| `PriorityQueue.PQueue.BubbleUp` | priorityQueue.c:75-92 | the loop leaves the slots of `Bubbled`, each entry knowing its slot |
| `PriorityQueue.PQueue.MaxChild` | priorityQueue.c:95-108 | the child with the smaller priority, the right one on a tie |
| `PriorityQueue.PQueue.PercolateDown` | priorityQueue.c:111-128 | the loop leaves the slots of `Percolated`, each entry knowing its slot |
| `PriorityQueue.PQueue.Insert` | priorityQueue.c:131-155 | adds exactly the entry, growing the array if full; order, positions and the slots of `Inserted` |
| `PriorityQueue.PQueue.Size` | priorityQueue.c:67-72 | the number of entries |
| `PriorityQueue.PQueue.Peek` | priorityQueue.c:205-213 | a minimum, or null if and only if empty |
| `PriorityQueue.PQueue.Pop` | priorityQueue.c:189-202 | takes out exactly a minimum; order, positions and the slots of `Popped` |
| `PriorityQueue.PQueue.Remove` | priorityQueue.c:175-186 | takes out exactly the victim: the entry, or on a tie in the last slot its parent; the slots of `Removed` |
| `PriorityQueue.PQueue.ChangePriority` | priorityQueue.c:158-172 | with the old priority still stored, any change keeps order, positions and entries |
| `PriorityQueue.PQueue.StoreThenChange` | events.c:1314-1317 | called as the scheduler calls it, the queue is valid afterwards if and only if the new priority is no larger than the children's |
| `QueuePaths.BubbledPath` | priorityQueue.c:75-92 | the entry stops under the first strictly smaller one on its way up, or at the root; those on its way move one slot down, nothing else moves |
| `QueuePaths.MinChildTies` | priorityQueue.c:95-108 | a tie between children goes to the right one |
| `QueuePaths.PercolatedPath` | priorityQueue.c:111-128 | the entry goes down to the smaller child as long as that is not greater; those on its way move up, nothing else moves |
| `CleanupDir.KeepNewest` | util.c:182-296 | for every listing and every K the queue ends with min(n, K) entries, one for each candidate not listed for deletion, the others are listed once each, none newer than a kept one |
| `CleanupDir.Round` | util.c:239-296 | one entry of the listing keeps the books: the next record is one of the K+1 and not queued |
| `CleanupDir.Visit` | util.c:264-295 | inserting, popping the oldest when over K and recycling its record keeps the books |
| `CleanupDir.BalancedKeepsNewest` | util.c:264-288 | balanced books at the end mean that the newest are kept |
| `CleanupDir.TakePart` | util.c:239-256 | those that take part are all entries with a score other than the two dot directories, and other than hidden ones if asked |
| `Timeval.MacrosAreMicros` | events.c:171-202 | on normal timevals timercmp, timeradd and timersub compare, add and subtract microseconds and stay normal |
| `Timeval.FromMsExact` | events.c:1445-1453 | milliseconds convert exactly, and to a normal timeval if and only if not a negative fraction of a second |
| `Accounts.StepAccounted` | events.c:789-824 | every interface call within the conditions of the queues, and every step of the loop, keeps the account: placement, heaps and count |
| `Accounts.RunAccounted` | events.c:789-824 | so does every run |
| `Accounts.BoundaryAccount` | events.c:935-1021 | between callbacks each live event is in exactly one of main queue, debug queue and parked slot, and the count is the number of live critical events |
| `Accounts.AddAccounted` | events.c:1170-1234 | adding puts exactly one new event, critical and counted, into the main queue |
| `Accounts.MarkAccounted` | events.c:1237-1248 | a change of the critical flag with its count, or of the breakpoint flag, keeps the account |
| `Accounts.RemoveAccountedIff` | events.c:1259-1288 | removal keeps the account if and only if the event is not in the last slot of its queue, below the root, under a parent of the same time |
| `Accounts.UntiedRemoval` | events.c:1259-1288 | it does whenever no other event of the queue has the same time |
| `Accounts.RemoveTied` | priorityQueue.c:175-186 | a tied removal frees the event, leaves it in the queue, and takes its parent out |
| `Accounts.TiedRemoval` | priorityQueue.c:175-186 | of two events added with the same delay, removing the later one is clean and removing the earlier one loses the later one |
| `Accounts.RescheduleAccountedIff` | events.c:1300-1322 | rescheduling keeps the account if and only if the event is in its callback or its new time is no later than those of the children of its slot |
| `Accounts.LateReschedule` | events.c:1300-1322 | the first of two events rescheduled behind the other stays first |
| `Accounts.MonoAccountedIff` | events.c:1334-1352 | moving a main event to the debug queue keeps the account if and only if it is not tied |
| `Accounts.FireAccounted` | events.c:789-798 | popping the first event and parking or calling it keeps the account |
| `Accounts.KeepAccounted` | events.c:804-812 | putting a kept event back into its queue keeps the account |
| `Accounts.HeadIsFirst` | events.c:996-1005 | the head of a queue has the earliest time of all its events |
| `VirtualClock.StepTimely` | events.c:996-1009 | no queued event is in the past and what is called is due exactly now, kept by every step with non-negative delays |
| `VirtualClock.BlockTimely` | eventTimer.c:210-234 | the jump of the clock to the first event's time keeps that, and goes forward |
| `VirtualClock.VirtualTime` | eventTimer.c:210-234 | over every run every main event is called when the clock shows its awake time, in order of time, and the clock never goes back; breakpoints, single steps and paused clocks included |
| `VirtualClock.KeptEventTimes` | events.c:789-824 | the k-th call of an event that is not rescheduled is at its first time plus k steps exactly |
| `VirtualClock.StampsAreMicros` | events.c:171-202 | adding, keeping, comparing and testing with the timeval macros is the arithmetic on microseconds used here |
| `EventEffects.BlockReachesFirst` | eventTimer.c:210-234 | with nothing parked and no reply awaited, a clock that is not paused moves to the earliest awake time of the main queue, and that event is due; otherwise it stands still |
| `EventEffects.DueMeans` | events.c:996-1003 | something is due if and only if the time of some event of the queue has come |
| `EventEffects.FirstFires` | events.c:789-806 | an earliest event is called, and logged with its time, unless a breakpoint of its own or of the next event parks it, which uses up a step |
| `EventEffects.DebugFires` | events.c:1011-1021 | the debug queue goes by the wall clock |
| `EventEffects.ReturnMeans` | events.c:804-823 | the event lives on if and only if it is kept; then it is due a step after its last time or, if it was rescheduled in the callback, at its new time |
| `EventEffects.AddMeans` | events.c:1170-1234 | one new critical event, due after the delay |
| `EventEffects.UpdateMeans` | events.c:1300-1322 | the event, in its place, is due after the delay from now; others are not touched |
| `EventEffects.CreditMeans` | events.c:1364-1391 | it is due at the later of now and the delay after it was scheduled |
| `EventEffects.RescheduledInCallback` | events.c:804-812 | a callback that reschedules its event and asks to be kept is called again after that delay, and not a step later |
| `EventEffects.RemoveMeans` | events.c:1259-1288 | the event is freed unless its callback is running; a parked one leaves the dummy in the slot |
| `EventEffects.MonoMeans` | events.c:1334-1352 | an untied event goes from its queue to the debug queue, due a step from now by the wall clock, and not critical |
| `EventEffects.CriticalMeans` | events.c:1237-1248 | the flag, and the count as the number of critical events |
| `EventEffects.BreakpointMeans` | events.c:1324-1332 | the flag and nothing else |
| `EventLoop.DrainedSound` | events.c:995-1009 | the drain, with any callbacks within the conditions of the interface, keeps the invariants and leaves nothing due unless it parked an event or its script ended |
| `EventLoop.LoopedSound` | events.c:905-1009 | so does the loop; the clock and the log only grow, and an automatic exit that was to wait for timed events (EVT_EXIT_SCHED, with or without EVT_EXIT_FD) means that no live one is critical |
| `LoopProgress.TurnFires` | events.c:971-1009 | a turn that neither waits nor steps nor exits, with a clock not paused, a live main event, no breakpoint and a script: an earliest event is called when the clock shows its time |
| `LoopProgress.LoopFires` | events.c:931-1009 | whenever the loop comes to such a turn, that call is in the log at the end |
| `LoopProgress.TurnWaits` | events.c:951-997 | while an event is parked or a reply awaited a turn calls nobody and the clock stands still |
| `LoopProgress.TurnExitsIff` | events.c:982-990 | the loop exits at a turn if and only if it was asked to and no work it was asked to wait for is left: no live critical event, no critical descriptor |
| `LoopProgress.TurnSteps` | events.c:935-941 | a turn with a single step is that step and then a turn without |
| `LoopProgress.LoopRuns` | events.c:931-1009 | the turns are made one after the other up to the first that exits |
| `LoopProgress.MadeInOrder` | events.c:802-803 | the interface calls of a callback are made in order, each with its effect |
| `LoopProgress.CalledMeans` | events.c:800-823 | whatever the callback calls, its event lives on if and only if it asks to be kept |
| `LoopProgress.SteppedMeans` | events.c:935-941 | a single step calls the parked event now and empties the slot |
| `TimedQueues.SlotUnique` | priorityQueue.c:175-186 | with one entry per event, the slot found by search is the one the entry knows |
| `TimedQueues.TimedQueue.Insert` | events.c:1170-1234 | a new entry for the event: the array of the heap holds the slots of `Inserted`, and each queued event still knows its entry |
| `TimedQueues.TimedQueue.First` | events.c:996-1005 | the event and the time in the first slot, or none if and only if the queue is empty |
| `TimedQueues.TimedQueue.Pop` | events.c:995-1009 | the slots of `Popped`, and the event that was first |
| `TimedQueues.TimedQueue.Remove` | events.c:1280-1284 | through the event's entry, the slots of `Removed` |
| `TimedQueues.TimedQueue.Change` | events.c:1314-1317 | through the event's entry, the slots of `Bubbled`; the queue is valid afterwards if and only if the new time is no later than those of the children |
| `EventLoop.EventState.SchedAdd` | events.c:1170-1234 | over the two heaps, the step that adds an event |
| `EventLoop.EventState.SchedRemove` | events.c:1259-1288 | the step that removes one, on a tie the wrong one |
| `EventLoop.EventState.SchedUpdate` | events.c:1300-1322 | the step that reschedules a queued or running event; the queues are valid afterwards if and only if it is clean |
| `EventLoop.EventState.SchedUpdatePartialCredit` | events.c:1355-1391 | likewise, not before the present |
| `EventLoop.EventState.SchedMoveToMono` | events.c:1334-1352 | the step that moves a queued event to the debug queue |
| `EventLoop.EventState.Do` | events.c:1170-1391 | each interface function makes its step over the two heaps, which are valid afterwards if and only if it is not a reschedule past the children |
| `EventLoop.EventState.DoAll` | events.c:802-803 | the calls of a callback make their steps in order |
| `EventLoop.EventState.RunCallback` | events.c:800-823 | the callback, then kept or freed |
| `EventLoop.EventState.HeadDue` | events.c:996-1005 | the peek tells whether an event is due |
| `EventLoop.EventState.DrainMain` | events.c:995-1009 | the loop over the heap computes the drain |
| `EventLoop.EventState.StepSlot` | events.c:935-941 | a single step calls the parked event back and empties the slot; the dummy left by a removal is dropped |
| `EventLoop.EventState.StartLoop` | events.c:905-1009 | the loop computes the turns of the script, and exits early only when none of the kinds of work asked for is left; with EVT_EXIT_SCHED no live timed event is then critical |
| `FdTable.Table.FdAdd` | events.c:547-622 | the new nodes; sets, counters, maxima and buckets agree with them |
| `FdTable.Table.FdRemove` | events.c:507-524 | likewise; nothing while the callback runs |
| `FdTable.Table.FdForceRemove` | events.c:525-540 | likewise; a running callback is marked |
| `FdTable.Table.RemoveInternal` | events.c:389-444 | a callback is taken out, the node freed with its last one; the table stays valid if unlinked through the bucket, and through the slot if and only if the node is not freed |
| `FdTable.NextTop` | events.c:410-417 | the scan finds the next highest watched descriptor |
| `FdTable.Table.FdSetCritical` | events.c:1403-1416 | the flag and the count |
| `FdTable.Table.FdSetPausable` | events.c:1998-2015 | the flag and the blocked sets |
| `FdTable.Table.FdSetPaused` | events.c:2018-2035 | the flags and the blocked sets |
| `FdTable.Table.Dispatch` | events.c:826-861 | with any interface calls from the callback: reads freed memory if and only if they freed the node in front; otherwise the nodes are as specified and the table is valid |
| `FdTable.Table.StepSlot` | events.c:942-948 | faults if and only if the parked node was freed meanwhile; otherwise the table is valid if and only if the node is not freed by the step |
| `FdTable.StepLeavesFreedNode` | events.c:942-948 | one callback, added, parked, stepped and not kept, leaves a table that is not valid |
| `FdTable.NeighbourRemoved` | events.c:1032-1041 | a table in which a callback frees the node in front of its own |
| `FdTable.WithoutWatched` | events.c:399-405 | what the sets say after one callback is taken out |
| `FdEffects.RemoveMeans` | events.c:507-524 | an idle callback is taken out: its event's sets lose the descriptor, the other sets stay, the node is gone if and only if no other event of it is watched; a running one is left alone |
| `FdEffects.ForceMeans` | events.c:525-540 | likewise; a running callback stays in the sets and is marked |
| `FdEffects.AddMeans` | events.c:547-622 | the event's set gains the descriptor and no other set changes; a new node is critical and pausable; a running callback is set again |
| `FdEffects.AddNothing` | events.c:553-556 | a null callback removes |
| `FdEffects.EndMeans` | events.c:852-861 | at its end a callback is taken out if a removal was forced, or it asks for it and was not set again; otherwise it stays, idle |
| `FdEffects.ForcedInCallback` | events.c:525-540 | a removal forced in the callback is made when it ends, kept or not |
| `FdEffects.SetAgainInCallback` | events.c:599-603 | a callback set again in the callback stays, kept or not |
| `FdEffects.EffectsAppend` | events.c:847-850 | the interface calls of a callback take effect one after the other |
| `FdEffects.CalledOne` | events.c:847-850 | and before them the callback is marked as running |
| `Xdr.IntRoundTrip` | xdr.c:300-324 | every 32- and 64-bit integer decodes from its encoding, whatever follows |
| `Xdr.TextRoundTrip` | xdr.c:556-625 | so does every string up to 2^32 - 4 bytes, padding included |
| `Xdr.NumsRoundTrip` | xdr.c:1854-1905 | so does every counted integer array |
| `Xdr.RoundTrip` | xdr.c:873-950 | for every field table of integers, strings, counted arrays, nested structures and registered unions, decoding an encoding returns the value and takes exactly its bytes |
| `Xdr.FieldsRoundTrip` | xdr.c:873-895 | the decoder's loop from any field on |
| `Xdr.Aligned` | xdr.c:597-664 | every encoding is a multiple of four bytes |
| `Xdr.EncodeFits` | xdr.c:922-950 | with room enough the encoders write exactly the encoding |
| `Xdr.SizingPass` | xdr.c:597-625 | without a destination they report its length, and fault if and only if a non-empty string fits the limit |
| `Xdr.SizeReported` | xdr.c:835-863 | with a buffer of any size they fault if and only if a string behind the overflow fits the limit; otherwise they report the length, and fail if and only if it exceeds the buffer |
| `Xdr.StringBehindOverflow` | xdr.c:597-625 | three hundred words and then a one-byte string into 1024 bytes fault |
| `Xdr.TextSizeIff` | xdr.c:597-625 | the size the string encoder reports is the length of the encoding if and only if the string is at most 2^32 - 4 bytes long |
| `Xdr.StringFreeIsSafe` | xdr.c:647-664 | values without non-empty strings never fault |
| `XdrWire.IntWire` | xdr.c:647-813 | integers are two's complement, high byte first, in four or eight bytes |
| `XdrWire.TextWire` | xdr.c:597-625 | a string is its length, its bytes, and zeros up to a multiple of four |
| `XdrWire.NumsWire` | xdr.c:1854-1879 | element i of an array stands at i times the width, encoded by itself |
| `XdrWire.StructWire` | xdr.c:922-950 | the fields stand one behind the other, each encoded by itself |
| `XdrWire.UnionWire` | xdr.c:835-863 | a union is its tag and then the structure |
| `XdrWire.TextTaken` | xdr.c:556-580 | a string is taken if and only if all of its announced length is there, padding included |
| `XdrWire.CutIsRefused` | xdr.c:873-895 | no encoding that is cut short, anywhere, is taken for a value of its type |
| `XdrWire.UnknownTagRefused` | xdr.c:516-547 | a tag that is not registered is refused by the decoder |
| `XdrWire.EncodedIsKnown` | xdr.c:835-863 | and by the encoders: what they report as written has registered tags only, however deep |
| `XdrCode.EncodeInt` | xdr.c:647-813 | the integer encoders do that to the buffer and nothing else |
| `XdrCode.EncodeText` | xdr.c:597-625 | the string encoder does |
| `XdrCode.EncodeNums` | xdr.c:1854-1879 | the array loop does |
| `XdrCode.EncodeFields` | xdr.c:922-950 | the structure loop does |
| `XdrCode.EncodeUnion` | xdr.c:835-863 | the union encoder does |
| `XdrCode.EncodeValue` | xdr.c:835-950 | the encoders together do |
| `XdrCode.DecodeArray` | xdr.c:1881-1905 | the array loop computes the decoding |
| `XdrCode.DecodeStruct` | xdr.c:873-895 | the structure loop computes the decoding |
| `XdrCode.DecodeValue` | xdr.c:516-547 | the decoders together compute the decoding |
| `XdrCode.EncodeWithRetry` | ipc.c:725-741 | one retry is enough: values with registered tags and strings up to 2^32 - 4 bytes are sent as their encoding unless the first attempt faults, and values without strings always |
| `XdrCode.EncodeCommand` | ipc.c:708-741 | with 1024 bytes, then exactly the size reported |
| `XdrCode.StructToOpaque` | cmd.c:1282-1315 | with 256 bytes, then 16 more than the size reported |
| `XdrCode.CommandRoundTrip` | ipc.c:708-741 | a command sent so is decoded to itself |
| `XdrDict.InsertMeans` | xdr.c:1960-1973 | insertion keeps a list sorted, binds the key and touches no other |
| `XdrDict.DeleteMeans` | xdr.c:1978-1995 | deletion keeps it sorted, unbinds the key and touches no other |
| `XdrDict.SortedIsCanonical` | xdr.c:1959-1963 | a sorted list is determined by what it binds |
| `XdrDict.TableIsCanonical` | xdr.c:1907-1976 | a table is determined by its mapping |
| `XdrDict.RunMeans` | xdr.c:1919-1995 | after any history of adds and removes the table is well formed and binds each key to the first add after its last remove |
| `XdrDict.Canonicity` | xdr.c:2020-2137 | two histories that leave the same mapping encode to identical bytes |
| `XdrDict.DecodeMerges` | xdr.c:2139-2190 | decoding an encoding into any dictionary takes exactly its bytes and adds its mapping under what is bound already |
| `XdrDict.DecodeRecovers` | xdr.c:2139-2190 | decoding into an empty dictionary recovers the table, for any value coder that round-trips |
| `XdrDict.UnionsRecover` | xdr.c:508-547 | the union coder is one |
| `XdrDict.TableOutcome` | xdr.c:2064-2137 | encoding succeeds if and only if the bytes fit, and stops the program if and only if the table without its last entry overflows |
| `XdrDict.SecondKeyStops` | xdr.c:2064-2137 | any two entries with different keys in a buffer of four bytes stop the program |
| `XdrDict.DictBucket` | xdr.c:1908-1917 | the loop computes the bucket |
| `XdrDictWire.CompareDecides` | xdr.c:1959-1963 | the first differing byte decides, or else the length |
| `XdrDictWire.XorBits` | xdr.c:1911-1915 | a bit of the exclusive or is set if and only if it is set in one of the two |
| `XdrDictWire.HashTakesBytesInOrder` | xdr.c:1910-1915 | one more byte is one more round: exclusive or, product modulo 2^32, and exclusive or with itself shifted by fifteen |
| `XdrDictWire.KnownBuckets` | xdr.c:1908-1917 | the buckets of the empty key and of "a" |
| `XdrDictWire.SentInOrder` | xdr.c:2020-2034 | the entries are sent by bucket and by key, and are what the dictionary binds |
| `XdrDictWire.TableWire` | xdr.c:2099-2137 | a dictionary is its length and then the entries, each a string and its value, at their places |
| `XdrDictWire.CStringMeans` | xdr.c:2158-2162 | a decoded key ends before its first zero byte |
| `XdrDictWire.BrokenInput` | xdr.c:2157-2186 | the decoder fails at the first entry it cannot read, and what it read before stays |
| `XdrDict.Dictionary.LookupNode` | xdr.c:1919-1933 | the first node with the key, or none if unbound |
| `XdrDict.Dictionary.Lookup` | xdr.c:1935-1942 | what is bound to the key |
| `XdrDict.Dictionary.Add` | xdr.c:1944-1976 | refused if and only if the key is bound; the new table; the 32-bit length |
| `XdrDict.Dictionary.Remove` | xdr.c:1978-1995 | returns what was bound; the new table; the 32-bit length |
| `XdrDict.Dictionary.RemoveAll` | xdr.c:1997-2018 | the empty table |
| `XdrDict.Dictionary.Encode` | xdr.c:2064-2137 | the iteration does to the buffer what `TableOutcome` is about |
| `XdrDict.Dictionary.Decode` | xdr.c:2139-2190 | the loop computes the decoding, entries read before a failure included |
| `Bitfield.EncodeBits` | xdr.c:952-975 | the loop writes the packed word |
| `Bitfield.DecodeBits` | xdr.c:897-920 | the loop unpacks every field, or fails if and only if four bytes are missing |
| `Bitfield.ExtractFromPack` | xdr.c:909-917 | a field finds its own digits, and nothing of disjoint fields, in the packed word |
| `Bitfield.ExtractIs` | xdr.c:912 | a field is the word divided by 2 to its position, modulo 2 to its width |
| `Bitfield.PackedField` | xdr.c:963-972 | in the packed word a field that overlaps no other has its value modulo 2 to its width |
| `Bitfield.NothingElsePacked` | xdr.c:963-972 | where there is no field the packed word is zero |
| `Bitfield.DigitsRoundTrip` | xdr.c:219-235 | masking and sign extension give the value back if and only if it is in the field's range, two's complement for signed fields |
| `Bitfield.UnpackPack` | xdr.c:897-975 | among disjoint fields a field gets its value back if and only if it is in range |
| `Bitfield.BitsRoundTrip` | xdr.c:897-975 | the same over the word on the wire |
| `Bitfield.PackIgnoresOrder` | xdr.c:963-972 | the word does not depend on the order of the table |
| `Md5.DecodeEncode` | md5.c:267-295 | decoding the four bytes of a word gives the word |
| `Md5.EncodeDecode` | md5.c:267-295 | encoding the word of four bytes gives the bytes |
| `Md5.DigestHoldsState` | md5.c:167-168 | sixteen bytes are the digest if and only if they decode to the four words of the final state |
| `Md5.PadMeans` | md5.c:149-165 | the padded message is the message, a byte 80, as few zeros as reach a multiple of 64 bytes, and the number of bits modulo 2^64 in eight bytes, low-order first |
| `Md5.StartBytes` | md5.c:96-107 | the start words are 01 23 45 67 89 ab cd ef fe dc ba 98 76 54 32 10, low-order bytes first |
| `Md5.BlocksAppend` | md5.c:129-137 | folding the block function over a concatenation is folding twice |
| `Md5.CountAdds` | md5.c:122-125 | the two-word counter with its carry is the bit length modulo 2^64 |
| `Md5.Context.Absorb` | md5.c:129-137 | the loop folds the filled buffer and all whole blocks of the input |
| `Md5.Context.Update` | md5.c:112-144 | the context stands for the message with the input appended |
| `Md5.Context.Final` | md5.c:149-172 | the digest of the message padded as in sections 3.1 and 3.2 of RFC 1321 |
| `Md5.DigestOfPieces` | md5.c:96-172 | for every split of a message the digest is that of the whole message |
| `Zmtp.DecisionStands` | zmqlite.c:74-159 | what is decided on a prefix is not changed by more bytes |
| `Zmtp.FeedTwice` | zmqlite.c:74-159 | two pieces are as good as their concatenation |
| `Zmtp.CuttingDoesNotMatter` | ipc.c:656-679 | however a stream is cut, the phase, the closed flag, the replies and the messages are those of one piece |
| `Zmtp.BigEndianRoundTrip` | zmqlite.c:354-357 | lengths survive the byte order |
| `Zmtp.FramesDrain` | zmqlite.c:338-364 | frames as written parse back to the same payloads, short and long |
| `Zmtp.Handshake` | zmqlite.c:81-124 | the three greetings are accepted and answered in order |
| `Zmtp.CommandTaken` | zmqlite.c:149-155 | a command frame is consumed without being delivered |
| `Zmtp.Session` | zmqlite.c:74-159 | a whole session, cut anyhow, delivers exactly the payloads sent |
| `ZmtpOutcome.Greetings` | zmqlite.c:16-33 | the three greetings and the READY command, byte by byte |
| `ZmtpOutcome.HandshakeOutcome` | zmqlite.c:74-124 | over every stream in any pieces: the peer is let in if and only if it begins with the three greetings; it is closed out if and only if one of them is complete and differs somewhere; what was sent is the own signature and the answers to the greetings accepted, and nothing is delivered before |
| `ZmtpOutcome.InData` | zmqlite.c:125-157 | once the peer is in nothing closes the connection and nothing is sent |
| `ZmtpOutcome.EightBytes` | zmqlite.c:134-137 | long lengths are eight bytes, highest first |
| `ZmtpOutcome.RawTaken` | zmqlite.c:125-157 | a frame with any flags is taken whole, and delivered unless it is a command; of a part of it nothing is taken |
| `ZmtpOutcome.StreamDelivers` | zmqlite.c:125-157 | of every stream of frames the payloads of those that are not commands are delivered in order, and an incomplete one is kept |
| `ZmtpOutcome.FrameWire` | zmqlite.c:338-364 | frames are written with flags 0 and one byte of length up to 255 bytes, with flags 2 and eight bytes beyond |
| `Zmtp.IPCBuffer.Append` | ipc.c:573-603 | the buffer holds what it held and the new bytes, whatever growth was needed |
| `Zmtp.IPCBuffer.Discard` | ipc.c:668-676 | the consumed bytes are shifted out in place |
| `Zmtp.Client.Process` | zmqlite.c:74-159 | one greeting or frame accepted and answered, refused with the close flag, or left until more arrives |
| `Zmtp.Client.ReadCb` | ipc.c:656-679 | one read is one piece fed to the parser |
| `Requests.CompletionIff` | cmd.c:543-576 | a response keeps the books if and only if the timer it removes is not in the last slot of its queue, below the root, under an event of the same time |
| `Requests.UntiedTimer` | cmd.c:570-573 | it does whenever no other event of the queue has the timer's time |
| `Requests.TiedTimers` | cmd.c:1339-1365 | of two requests sent at one instant with the same timeout the earlier is answered: its freed timer stays queued, the timer of the waiting one is in no place |
| `Requests.RunBooked` | cmd.c:543-576 | over any interleaving of sends, responses, timeouts and other steps of the event handler in which no removal hits a tied event: every request waits once or was completed once, no callback was called twice, exactly the timers of waiting requests are live, and the account of the events holds |
| `Requests.SentBooks` | cmd.c:1339-1365 | sending adds one waiting request, with a timer if asked for, and keeps the books |
| `Requests.Completion` | cmd.c:1317-1365 | from the start of such a run: no request is completed and no callback called twice, a completed request has no entry and its timer is neither live nor queued, the timer of a waiting one is live, waiting is sent minus completed |
| `Requests.CalledUnlessDropped` | cmd.c:1213-1241 | over any such run a callback was called if and only if its request was completed, other than by a response whose body does not decode to a callback that is not raw |
| `Requests.DroppedResponse` | cmd.c:1213-1241 | one request and one response that does not decode: completed and not called back |
| `Requests.ResponseCompletes` | cmd.c:555-576 | a response completes the latest matching request, a stray one none; the callback is called if and only if it is raw or the body decodes |
| `Requests.ExpiryCompletes` | cmd.c:1317-1337 | a timer always finds its request, completes it, calls it back and is freed; the books are kept, tied or not |
| `RequestEffects.SentMeans` | cmd.c:1339-1365 | the new request stands in front, so a response to it finds it first; its timer is a new event due after the timeout, and no other event changes |
| `RequestEffects.SentAllMeans` | cmd.c:1339-1365 | what a callback sends stands in front of the others, the last in front |
| `RequestEffects.ResponseLeaves` | cmd.c:555-576 | a response takes one request out and leaves the others in their order, behind what the callback sent |
| `RequestEffects.ExpiryLeaves` | cmd.c:1317-1337 | so does a timeout |
| `RequestEffects.TimerFreed` | cmd.c:570-573 | the completed request's timer is freed, and no other event is |
| `Requests.Registry.AddResponse` | cmd.c:1339-1365 | in front of the list, with an event added to the handler's queue if there is a timeout |
| `Requests.Registry.FindMatch` | cmd.c:555-563 | the walk finds the first match |
| `Requests.Registry.FindRequest` | cmd.c:1325-1330 | the walk finds the timer's request |
| `Requests.Registry.HandleResponse` | cmd.c:543-576 | the first match is unlinked, called back if it is raw or the body decodes (further sends included), and its timer removed from the handler's heap; nothing if none matches |
| `Requests.Registry.HandleTimeout` | cmd.c:1317-1337 | the timer's request is unlinked and called back, and the handler frees the timer |

## Left out

- Time theft in the global clock (globalTimer.c:288-305), which leaves the loop owning the semaphore with its flag cleared.
- The overrun of the process table past 128 rows: a join is a step only below that.
- The unlink of the global clock's file.
- GlobalClock.ResumeTimesIncrease: starts from an all-active state, which a fresh region does not reach with two processes.
- Critical.CrashAtomicity: assumes that the checksum rejects every torn or altered record, that reads do not fail, that completed writes survive a crash (the code does not call fsync), and that 64-bit versions do not wrap.
- Critical.LoadFinds: the files of a family are taken to be this process's own. The prefix tests (critical.c:63, 75, 215 and 227) of a process "x" also match the files of a process "x.a" in family a, which a load would read and a cleanup would delete.
- Critical.RotInv: bit rot spares an intact copy of the newest entry, which for a live process is in a current file, and the last intact copy of a file of the first family being written.
- GlobalClock.ConsiderateRunsDoNotStall: goes on after a process has left as if the semaphores were still there, which `LeaverCountsNobody` says they are not.
- Malloc failure, everywhere.
- Accounts.StepAccounted: a reschedule or a move of a parked event is no step, because the code then indexes outside the array.
- VirtualClock.VirtualTime: leaves out programs that set or advance the virtual clock themselves, and negative delays; the interface calls are within the conditions of `RemoveAccountedIff` and `RescheduleAccountedIff`.
- EventLoop.EventState.SchedMoveToMono: an event of the debug queue that is tied there, which the code would queue twice.
- EventLoop.EventState.StartLoop: the number of critical descriptors at each exit test is part of the script, not read from `FdTable`.
- The debug queue's own drain is a step of the machine and not a loop of the class; its clock is the wall clock.
- PriorityQueue.PQueue.Insert: the null queue and a failed reallocation, which return 1.
- FdTable.Table.Dispatch: the breakpoint test before the callback (events.c:834-842), which parks the node.
- FdTable.Table.FdAdd: cleanup callbacks, names, and descriptors beyond FD_SETSIZE; linked lists are sequences of descriptors, and node identity is a serial number.
- Cleaning of descriptor sets after a bad descriptor (events.c:624-680), the fairness of the select loop and GPIO interrupts.
- XDR floats, opaque and double arrays (double arrays use the float encoder, xdr.c:434-444; opaque arrays need one spare byte, xdr.c:141 and 168), string dictionaries (xdr.c:627-633 encodes with a decoder), arrays of unions.
- Xdr.RoundTrip: counted arrays need their length in an earlier field; a negative or missing count is a failure here; a null string is the empty string.
- Xdr.SizeReported: strings are at most 2^32 - 4 bytes long, since the code adds length and padding in 32 bits (xdr.c:577 and 613) and copies past the buffer beyond that.
- XdrCode.EncodeText: does not model that wrap-around for longer strings.
- XdrDict.TableOutcome: value coders must report their size without a destination and succeed if and only if they fit.
- XdrDict.Dictionary.Encode: needs a destination, since the code has no sizing pass for dictionaries.
- XdrDict.Dictionary.Add: the collision lists are sequences of nodes, not linked cells.
- XdrDict.Dictionary.Lookup: bytes are unsigned in the hash, as on platforms with unsigned characters.
- Bitfield.BitsRoundTrip: widths above 30, for which the code's shift of a signed 1 overflows.
- Md5.DigestOfPieces: the compression of a block is a parameter; pieces are shorter than 2^32 - 64 bytes.
- Zmtp.CuttingDoesNotMatter: bytes are unsigned, as on platforms with unsigned characters (zmqlite.c:142 reads a short length as a character), and a declared length does not wrap when the header is added.
- Requests.RunBooked: callbacks of requests send further requests and do nothing else to the event handler; other code does not touch the timers of requests. Runs whose removals hit tied events are left out, as `CompletionIff` says they must be.
- Printing, scanning, configuration, plugins, JSON, pseudo threads, sockets, process plumbing and the test program.
