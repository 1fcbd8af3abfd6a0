# A verified model of the sylar fiber runtime

The project models the parts of sylar in which state is shared, split or resumed: fibers that take
turns on one stack buffer, the scheduler and its workers, hooked sleep, timers, readiness events, the
block-linked `ByteArray` with its codecs, the stream loops, the chunked-body decoder, the receive window
of an HTTP session, address prefixes and the log pattern parser. Each part is given in the form of
the code (classes, arrays and loops where the code updates in place; step systems where threads
interleave), and is tied to an independent description: private stacks, one flat byte sequence, a
byte-wise decoder, a number, a grammar.

`dafny verify dfyconfig.toml` checks all files together.

## Parts

- `Fiber.dfy`: shared-stack fibers of one thread. The class `FiberEnvironment` carries the real bytes,
  tops, save buffers, occupiers and the call stack, and `Thread` is their value; `Machine` gives every
  fiber its own stack. Every operation of the
  first is a step of the second, and it aborts exactly when the assertion in `change_occupier` fails.
- `Scheduler.dfy`: workers with program counters, one step per access to shared memory. Ownership of
  fibers, their turns at the queue and the drain after `stop` hold in every interleaving.
- `SleepProtocol.dfy`: hooked sleep across timers, workers, fiber states and the shutdown: no wake-up
  is lost. On top of it, `SleepOwnership.dfy`: when a sleeper gets a second holder.
  `SleepExclusion.dfy`: when two workers touch one fiber. `SleepLosses.dfy`: which sleepers are never
  woken. `SleepDrain.dfy`: the drain with sleepers. `SleepWitnesses.dfy`: runs in which they fail.
- `Timer.dfy`: timers and the set ordered by expiry.
- `IoEvent.dfy`: registrations, with cancels and deletes that interleave at their locks; the object's
  methods run the step system.
- `BlockArithmetic.dfy`, `ByteArray.dfy`, `ByteArrayRuns.dfy`, `FileCopy.dfy`: the linked blocks against one flat
  sequence with two indices.
- `Varint.dfy`, `Endian.dfy`, `TypedIo.dfy`: the codecs on top.
- `Stream.dfy`, `ChunkedBody.dfy`, `HttpSession.dfy`: input in fragments of any size.
- `Address.dfy`: IPv4 and IPv6 prefixes. `LogPattern.dfy`: the pattern parser.
- `Bytes.dfy`, `Wrappers.dfy`, `Sequences.dfy`: bytes, missing values, slices.

## What the code does not do

Each of these is a lemma or a contract below, with the exact condition.

- `change_occupier` asserts that the occupier it displaces is SUSPENDED or TERMINATED. A fiber that
  sleeps, or that ended with an exception, on a shared stack makes the next fiber of that stack abort
  (`Fibers.StepRefines`, `Fibers.SleepingOccupierAborts`).
- A fiber that is spawned for a worker that does not exist or has stopped looking at the queue stays
  there for good; the drain is complete if and only if there was no such spawn (`Scheduling.Drain`,
  with a run in `Scheduling.PinnedSpawnIsLost`).
- The sleep hooks ignore the answer of `add_timer`, and `del_timer` goes by the key. A sleeper is lost
  if and only if its last sleep asked for an expiry that another timer had, or a cancel hit its key
  since (`SleepLosses.LostExactly`, `SleepProtocol.SleepOnTakenKey`, `SleepProtocol.CancelOfSleeper`).
- The timer is armed before the fiber has switched out. At most one queue entry or worker touches a
  fiber if and only if no sleeper's timer expires while its worker is still on the way out
  (`SleepExclusion.OneTouchExactly`); otherwise another worker can resume the fiber while the first is
  on its stack (`SleepWitnesses.ResumedBeforeOut`).
- A fiber gets a second holder if and only if a worker, back from a fiber that slept, finds it woken
  already and queues it again (`SleepOwnership.OneHolderExactly`); then two workers can run it
  (`SleepWitnesses.TwoWorkersOneFiber`).
- A fiber that goes to sleep after the last idle fiber has ended has nobody to expire its timer. When
  all workers have left, every fiber has ended if and only if no sleep came that late or was denied its
  wake-up (`SleepDrain.SleepersDrain`, with a run in `SleepWitnesses.SleptTooLate`).
- Recurring timers with one period that expire together are reduced to one (`Timers.RequeueMembers`,
  with an input in `Timers.TwinsCollapse`).
  `get_next_timer` on an empty set does not ask for a tickle (`Timers.FirstTimerWakesNobody`).
- `cancel_event` takes its lock twice; a registration made in between is deleted without being queued
  if and only if nothing touched the slot after it (`IoEvents.CancelDrops`, `IoEvents.ReaddIsLost`).
- `set_write_position` past the capacity keeps the array sound only for positions whose offset in
  their block is at least the spare capacity (`ByteArrays.ByteArray.SetWritePosition`); the capacity
  itself is not among them (`ByteArrays.SeekToCapacity`).
- `write_string_with_length` cuts the length to 32 bits (`TypedIo.LongStringCut`).
- `recv_request` drops what it read behind the body: as many bytes as the window at the header's end
  is longer than the body, and none if it is not (`HttpSession.RecvRequest`, with an input in
  `HttpSession.SecondRequestIsLost`).
- `read_chunked_body` counts size lines modulo 2^64 (`ChunkedBody.SizeWraps`, `ChunkedBody.HugeChunkEnds`).
- `read_chunked_body` loses step when a read ends between the CR and the LF of a size line; only a
  chunk made of LF bytes survives that, and on the last line `remained` wraps below zero
  (`ChunkedBody.Fragmented`).

## Model

| member | source | states |
|---|---|---|
| `Fibers.StepRefines` | sylar/fiber.cpp:162-217 | every operation on shared stacks is one step of the machine with private stacks; it aborts if and only if it would displace an occupier that is neither SUSPENDED nor TERMINATED; the assertions of yield and sleep on the next fiber never fail |
| `Fibers.RunRefines` | sylar/fiber.cpp:228-268 | the same over every run, with the call-stack invariant: bottom is the main fiber, the top alone is RUNNING, all below are SUSPENDED |
| `Fibers.ResumedBytes` | sylar/fiber.cpp:228-268 | a fiber switched out and later in again sees exactly the bytes it had, whoever used its block in between |
| `Fibers.Isolation` | sylar/fiber.cpp:261-268 | nothing but a fiber's own computation or reset changes its private stack |
| `Fibers.SwitchKeepsStacks` | sylar/fiber.cpp:228-259 | a switch keeps every suspended fiber's bytes, on the block it occupies or in its save buffer |
| `Fibers.ResumeRefines` | sylar/fiber.cpp:162-173 | resume of an INITING, suspended, sleeping or finished fiber against private stacks |
| `Fibers.LeaveRefines` | sylar/fiber.cpp:174-201 | yield, sleep and the end of a fiber hand the processor to the fiber below with its bytes intact |
| `Fibers.ResetRefines` | sylar/fiber.cpp:145-160 | reset empties the stack and changes no other fiber |
| `Fibers.WakeupRefines` | sylar/fiber.cpp:186-189 | wakeup turns SLEEPING into SUSPENDED and keeps all bytes |
| `Fibers.InitialInv` | sylar/fiber.cpp:48-56 | the invariant holds of a thread in which nothing has run |
| `Fibers.InvSound` | sylar/fiber.cpp:228-259 | every state the invariant allows meets what the in-place operations ask for |
| `Fibers.SleepingOccupierAborts` | sylar/fiber.cpp:27-28 | in every state, at any depth of the call stack, resuming a fiber whose block is occupied by another that sleeps or ended with an exception aborts |
| `Fibers.SleeperAbortsFromStart` | sylar/fiber.cpp:22-31 | from the start, for any two fibers that share a block: resume one, let it sleep, resume the other |
| `Fibers.FiberEnvironment.ChangeOccupier` | sylar/fiber.cpp:22-31 | the new occupier, the displaced one's bytes saved, and the assertion |
| `Fibers.FiberEnvironment.SwapContext` | sylar/fiber.cpp:228-259 | the in-place switch is the switch on values |
| `Fibers.FiberEnvironment.FiberResume` | sylar/fiber.cpp:162-173 | the in-place resume is the resume on values, or fails when that does |
| `Fibers.FiberEnvironment.FiberLeave` | sylar/fiber.cpp:174-201 | likewise for yield and sleep |
| `Fibers.FiberEnvironment.FiberFinish` | sylar/fiber.cpp:204-217 | likewise for the end of the wrapper |
| `Fibers.FiberEnvironment.FiberReset` | sylar/fiber.cpp:145-160 | likewise for reset |
| `Fibers.FiberEnvironment.FiberWakeup` | sylar/fiber.cpp:186-189 | likewise for wakeup |
| `Scheduling.FirstEligible` | sylar/scheduler.cpp:91-102 | the first entry that is unpinned or pinned to this thread |
| `Scheduling.TaskList.Pick` | sylar/scheduler.cpp:88-105 | takes that entry, keeps every entry before it in its place and moves every one behind it up by one, and reports what is left |
| `Scheduling.RemoveIs` | sylar/scheduler.cpp:100 | the queue without an entry, place by place |
| `Scheduling.StepKeepsTurns` | sylar/scheduler.cpp:88-105 | two entries that a step leaves in the queue keep their order; none is taken before an unpinned one that stands ahead of it |
| `Scheduling.NewcomerLast` | sylar/scheduler.cpp:26-36 | what a step queues comes behind all that was there |
| `Scheduling.OrderKept` | sylar/scheduler.cpp:88-126 | over every run, entries that stay in the queue keep their order |
| `Scheduling.InTurn` | sylar/scheduler.cpp:88-126 | over every run, first come, first served: while an unpinned entry stays in the queue, no worker takes one that is behind it |
| `Scheduling.StepKeepsOwnership` | sylar/scheduler.cpp:88-126 | every step of every worker keeps each live fiber in one place |
| `Scheduling.RunOwnership` | sylar/scheduler.cpp:81-141 | so does every run |
| `Scheduling.OnePlace` | sylar/scheduler.cpp:88-126 | in every reachable state, for any number of workers and any pins, a live fiber is in exactly one queue entry or held by exactly one worker, and set_env never meets a RUNNING fiber |
| `Scheduling.StepKeepsShutdown` | sylar/scheduler.cpp:127-164 | a worker leaves only after its idle fiber ended, and that ends only while stopping; once all are past the queue it has no unpinned entry; a late spawn leaves an entry that nobody can take, and once an idle fiber has ended only a late spawn does |
| `Scheduling.RunShutdown` | sylar/scheduler.cpp:81-164 | the same over every run, with late spawns recorded |
| `Scheduling.WorkKeepsActive` | sylar/scheduler.cpp:117-120 | the active count is the number of workers between its two changes |
| `Scheduling.IdleEnds` | sylar/scheduler.cpp:158-164 | in every reachable state the idle fiber ends if and only if stop has joined, the queue is empty and no worker is between the two changes of the active count |
| `Scheduling.Drain` | sylar/scheduler.cpp:53-71 | in every interleaving in which all workers have left schedule: the queue is empty and every added fiber has finished if and only if no fiber was spawned for a worker that is missing or had stopped looking; the active count is zero |
| `Scheduling.UnpinnedInTime` | sylar/scheduler.cpp:26-36 | with unpinned spawns none is late, so the drain is complete |
| `Scheduling.PinnedSpawnIsLost` | sylar/scheduler.cpp:158-164 | a run with a late spawn, at whose end the fiber is still in the queue |
| `SleepProtocol.NoLostWakeup` | sylar/hook.cpp:124-139 | in every interleaving in which no cancel names the key of a sleeper's timer: from arming until the fiber runs again there is an armed timer, a callback or a queue entry for it |
| `SleepProtocol.StepCovers` | sylar/scheduler.cpp:110-126 | each single step keeps that, but for a cancel of such a key |
| `SleepProtocol.FirstInFirstOut` | sylar/scheduler.cpp:91-102 | in every interleaving the entries come out of the queue in the order in which they went in |
| `SleepProtocol.DueOrNot` | sylar/iomanager.cpp:279-283 | expiry hands on every due sleeper and keeps the others |
| `SleepProtocol.LostForever` | sylar/hook.cpp:132-136 | a fiber that nobody runs or carries never runs again, whatever happens |
| `SleepProtocol.SleepOnTakenKey` | sylar/hook.cpp:132-136 | from any state, a sleep that nobody disturbs is lost if and only if its expiry is taken; over all interleavings see SleepLosses.LostExactly |
| `SleepProtocol.CancelOfSleeper` | sylar/timer.cpp:91-99 | a cancel loses a sleeper exactly when it names its key |
| `SleepProtocol.InitialInv` | sylar/scheduler.cpp:39-52 | the invariant holds at the start |
| `SleepOwnership.ShareKept` | sylar/scheduler.cpp:110-126 | a step hands on what its worker holds, except that it drops a fiber that ended or whose timer was refused; only the check after a sleep adds a holder |
| `SleepOwnership.StepExclusive` | sylar/scheduler.cpp:110-126 | a step without such a check keeps one holder at most, one runner exactly while the state says RUNNING, and what workers know of the states of the fibers they hold; and set_env does not abort |
| `SleepOwnership.DoubleHeld` | sylar/scheduler.cpp:121-124 | the check that finds a sleeper READY or SUSPENDED gives it a second holder |
| `SleepOwnership.OneHolderExactly` | sylar/scheduler.cpp:110-126 | in every run, every fiber has one holder at most (armed timer, due timer, callback, queue entry, or worker that will resume, runs or will requeue it) if and only if no worker, back from a sleep, queues it a second time; a worker on its way out of a sleep is no holder |
| `SleepOwnership.OneWorkerRuns` | sylar/scheduler.cpp:110-126 | until then nothing aborts, and no two workers hold a fiber or run it while its state says RUNNING; a worker that stored SLEEPING and is not out yet is the subject of SleepExclusion |
| `SleepExclusion.StepApart` | sylar/fiber.cpp:190-201 | every step but an early expiry keeps one that touches a fiber at most, and a worker on its way out of a sleep leaves the fiber SLEEPING |
| `SleepExclusion.EarlyTouches` | sylar/iomanager.cpp:279-283 | an expiry of a sleeper's timer before its worker is out makes two |
| `SleepExclusion.OneTouchExactly` | sylar/fiber.cpp:190-201 | in every run: one queue entry or worker at most touches a fiber, workers inside fiber_sleep and on the way out of it included, if and only if no sleeper's timer expires before its worker is out |
| `SleepExclusion.OneWorkerIn` | sylar/fiber.cpp:190-201 | so without such an expiry no two workers are in a fiber, none queues it twice, and nothing aborts |
| `SleepLosses.RunAccounted` | sylar/hook.cpp:124-139 | over every run without a second holder, a fiber that has not ended has its holder exactly when its wake-up was not denied |
| `SleepLosses.LostExactly` | sylar/hook.cpp:124-139 | over every run without a second holder, a fiber that has not ended and that nobody runs is lost for good if and only if its last sleep was refused a timer or a cancel hit its key since |
| `SleepDrain.RunClosing` | sylar/iomanager.cpp:254-264 | a worker leaves only after its idle fiber ended, which is after stop; once all are past the queue it is empty |
| `SleepDrain.RunActive` | sylar/scheduler.cpp:117-120 | in every run the active count is the number of workers between its two changes |
| `SleepDrain.IdleAsks` | sylar/iomanager.cpp:254-264 | in every run an idle fiber gets to the question about timers if and only if stop was called, the queue is empty and no worker is between those changes |
| `SleepDrain.EndedExactly` | sylar/iomanager.cpp:254-283 | when all workers are out, a fiber has ended if and only if its wake-up was not denied and it did not go to sleep after the last idle fiber had ended |
| `SleepDrain.SleepersDrain` | sylar/scheduler.cpp:127-141 | the drain with sleepers and the can_stop of IOManager: all fibers have ended if and only if this holds of each; the queue is empty in any case |
| `SleepWitnesses.ResumedBeforeOut` | sylar/fiber.cpp:190-201 | a run from the start in which one worker is in the fiber's code and another on its stack before the switch, without any second queueing |
| `SleepWitnesses.TwoWorkersOneFiber` | sylar/scheduler.cpp:110-126 | a run from the start after which two workers run one fiber |
| `SleepWitnesses.SleptTooLate` | sylar/iomanager.cpp:254-264 | a run from the start at whose end all workers are out and a sleeper's timer is armed |
| `Timers.TimerManager.AddTimer` | sylar/timer.cpp:74-90 | inserted in order unless its key is there; the waiting thread is tickled exactly when it asked and the timer comes first |
| `Timers.TimerManager.DelTimer` | sylar/timer.cpp:91-99 | removes what has the timer's key |
| `Timers.Timer.Cancel` | sylar/timer.cpp:15-22 | the same through the timer, which then has no manager |
| `Timers.Timer.Refresh` | sylar/timer.cpp:24-35 | out under the old key, in under the new one, or lost if that is taken |
| `Timers.Timer.Reset` | sylar/timer.cpp:37-58 | the same with a new period, with 64-bit wrap-around; nothing when the expiry stays |
| `Timers.FromLastStart` | sylar/timer.cpp:37-58 | a reset that does not count from now makes the timer due one new period after its last start, with 64-bit wrap-around |
| `Timers.WrapAround` | sylar/timer.cpp:37-58 | the additions and subtractions of expiries are those modulo 2^64 |
| `Timers.TimerManager.GetNextTimer` | sylar/timer.cpp:101-112 | the time to the first expiry, zero if due, all ones if empty |
| `Timers.TimerManager.GetExpired` | sylar/timer.cpp:114-130 | exactly the timers due at now, in order of expiry; the set that is left; the next expiry of the recurring ones, the others keep theirs; a tickle is asked for if any were due |
| `Timers.TimerManager.RequeueAll` | sylar/timer.cpp:124-129 | the loop over the expired timers |
| `Timers.InsertMembers` | sylar/timer.h:32-40 | what is in the set after an insert |
| `Timers.EraseMembers` | sylar/timer.h:32-40 | what is in the set after an erase |
| `Timers.DeleteMember` | sylar/timer.cpp:91-99 | deleting a timer that is in the set removes that very timer |
| `Timers.DeleteStranger` | sylar/timer.cpp:91-99 | deleting one that is not removes another exactly when that has the same key |
| `Timers.RekeyMember` | sylar/timer.cpp:24-58 | refresh and reset move this timer and no other, and lose it exactly when the new key is taken |
| `Timers.RequeueMembers` | sylar/timer.cpp:124-129 | which expired timers get a place again |
| `Timers.KeysAfterExpiry` | sylar/timer.cpp:114-130 | the keys afterwards: the old ones past now, and now plus the period of each due recurring timer |
| `Timers.TwinsCollapse` | sylar/timer.cpp:124-129 | two recurring timers of one period that expire together: one is left |
| `Timers.WaitThenExpire` | sylar/iomanager.cpp:268-283 | waiting what get_next_timer returned makes the next expiry non-empty, and waiting less does not |
| `Timers.WaitSafely` | sylar/timer.cpp:74-90 | while a thread waits, either somebody is tickled or nothing is due before it wakes |
| `Timers.FirstTimerWakesNobody` | sylar/timer.cpp:101-105 | on an empty set nobody asks to be tickled |
| `Timers.Perform` | sylar/timer.cpp:15-130 | every call keeps the set strictly sorted |
| `Timers.Run` | sylar/timer.cpp:15-130 | so does every run |
| `IoEvents.IoEvent.AddEvent` | sylar/iomanager.cpp:53-76 | the directions registered, and what is left when epoll_ctl fails |
| `IoEvents.IoEvent.DelEvent` | sylar/iomanager.cpp:77-100 | the directions removed with their fibers |
| `IoEvents.IoEvent.TriggerEvent` | sylar/iomanager.cpp:101-110 | behind what was queued, exactly one unpinned entry for the fiber that waits in each triggered direction, the reader's first; none where nobody waits or nothing was registered; the contexts are reset and the mask stays |
| `IoEvents.IoEvent.CancelEvent` | sylar/iomanager.cpp:101-112 | both parts in a row: these entries, and the directions off with their contexts reset |
| `IoEvents.Perform` | sylar/iomanager.cpp:53-112 | each add, trigger and delete that the object does on one direction is a step of the step system, slot, queue and answer; the other direction stays |
| `IoEvents.PerformAll` | sylar/iomanager.cpp:53-112 | so is every interleaving of adds, cancels and deletes at their locks, on a new object |
| `IoEvents.EachOnce` | sylar/iomanager.cpp:8-21 | in every interleaving of adds, cancels and deletes each registration waits, was queued, was deleted or was overwritten, and is in one of these places once; no more calls return true than registrations were made |
| `IoEvents.OneWakeup` | sylar/iomanager.cpp:77-112 | one registration: queued exactly once if a trigger came before every delete, else never; at most one call returns true, and exactly one when all are back |
| `IoEvents.WakeOnce` | sylar/iomanager.cpp:77-112 | so the object queues a fiber that is registered once exactly one time, unpinned, if a trigger comes before every delete, and else never; at most one call answers true, and exactly one when all are back |
| `IoEvents.CancelDrops` | sylar/iomanager.cpp:101-112 | the second half of a cancel takes away a registration if and only if, since its first half, an add was the last to touch the slot; it is that new registration, and nobody queued it |
| `IoEvents.ReaddIsLost` | sylar/iomanager.cpp:101-112 | a registration made between the halves is off and never queued |
| `BlockArithmetic.IsDivMod` | sylar/bytearry.cpp:41-42 | block number and offset are quotient and remainder |
| `BlockArithmetic.FlatUpdate` | sylar/bytearry.cpp:44 | a copy into one block is a splice of the flat sequence |
| `ByteArrays.ByteArray.constructor` | sylar/bytearry.cpp:21-29 | an empty array of any block size from one on |
| `ByteArrays.ByteArray.ExpandCapacity` | sylar/bytearry.cpp:71-86 | room for one byte more than asked, with contents and positions kept, and no block too many |
| `ByteArrays.ByteArray.Write` | sylar/bytearry.cpp:34-50 | the flat contents grow by the data |
| `ByteArrays.ByteArray.WriteBlocks` | sylar/bytearry.cpp:38-49 | the copy loop |
| `ByteArrays.ByteArray.Read` | sylar/bytearry.cpp:52-69 | the next bytes of the flat contents, as many as asked for and there |
| `ByteArrays.ByteArray.Walk` | sylar/bytearry.cpp:311-325 | where a cursor ends up, and when the walk would follow a null pointer |
| `ByteArrays.ByteArray.SetReadPosition` | sylar/bytearry.cpp:308-316 | any position up to the write position; else refused |
| `ByteArrays.ByteArray.SetWritePosition` | sylar/bytearry.cpp:318-326 | keeps the array sound if and only if the position is not before the read position and is in reach |
| `ByteArrays.ByteArray.GrowthReaches` | sylar/bytearry.cpp:319-320 | which positions past the capacity the growth branch covers |
| `ByteArrays.ByteArray.SetWriteInside` | sylar/bytearry.cpp:318-326 | below the capacity only the position moves |
| `ByteArrays.SeekToCapacity` | sylar/bytearry.cpp:318-326 | after one byte was written, the write position set to the capacity leaves the array unsound, with no block under the cursor |
| `ByteArrays.ByteArray.Clear` | sylar/bytearry.cpp:388-397 | empty again |
| `ByteArrays.ByteArray.GetReadBuffers` | sylar/bytearry.cpp:328-348 | the slices concatenate to the next unread bytes, and nothing changes |
| `ByteArrays.ByteArray.GetWriteBuffers` | sylar/bytearry.cpp:349-369 | the slices are the memory of the next positions; contents are kept |
| `ByteArrays.ByteArray.SlicesDisjoint` | sylar/bytearry.cpp:349-369 | slices lie inside blocks and share no byte |
| `ByteArrays.ByteArray.GatherCovers` | sylar/bytearry.cpp:328-348 | slices that cover positions hold the flat bytes there |
| `ByteArrays.ByteArray.Scatter` | sylar/stream.cpp:81-91 | filling the slices in order extends the flat contents |
| `ByteArrayRuns.Perform` | sylar/bytearry.cpp:34-69 | each call answers and changes what one sequence with two indices would; a set_write_position is made wherever it leaves the array sound |
| `ByteArrayRuns.Run` | sylar/bytearry.cpp:34-86 | so does every run of write, read, both seeks and clear |
| `ByteArrayRuns.FirstInFirstOut` | sylar/bytearry.cpp:34-69 | over every run of writes and reads, what came out and what is left is what went in |
| `FileCopy.WriteToFile` | sylar/bytearry.cpp:261-285 | the whole contents or a failure, with the read position put back |
| `FileCopy.ReadFromFile` | sylar/bytearry.cpp:286-306 | the contents are those of the file |
| `Varint.RoundTrip` | sylar/bytearry.cpp:115-137 | a decoded encoding is the number, and the rest stays |
| `Varint.ShortExactly` | sylar/bytearry.cpp:178-196 | a read runs out of data if and only if there are fewer bytes than the limit and each has its top bit set |
| `Varint.CutIsShort` | sylar/bytearry.cpp:178-196 | so every proper prefix of an encoding does |
| `Varint.GotMeans` | sylar/bytearry.cpp:178-196 | otherwise it takes the bytes up to the first without that bit, or as many as the limit allows, and gives the sum of their low seven bits, the i-th times 128^i; also for encodings that are longer than need be |
| `Varint.EncodeLength` | sylar/bytearry.cpp:115-137 | a number takes at most k bytes if and only if it is below 128^k |
| `Varint.Widths` | sylar/bytearry.cpp:115-137 | at most 5 and 10 bytes |
| `Varint.ZigzagRoundTrip` | sylar/bytearry.cpp:104-111 | decoding undoes zigzag on every signed value of the width |
| `Varint.ZigzagOnto` | sylar/bytearry.cpp:104-111 | and encoding undoes decoding on every unsigned one |
| `Varint.SmallSigned` | sylar/bytearry.cpp:112-137 | a signed value takes at most k bytes if and only if it is in [-2^(7k-1), 2^(7k-1)) |
| `Varint.StreamRoundTrip` | sylar/bytearry.cpp:175-218 | values of all four kinds written back to back read back unchanged, with nothing left over |
| `Varint.MeaningWraps` | sylar/bytearry.cpp:175-218 | what does not fit the width is cut off: numbers that differ by 2^32 or 2^64 read as the same value |
| `Endian.NetworkOrder` | sylar/util.cpp:39-51 | the memory of a converted number is its big-endian bytes, in all widths |
| `Endian.FromNetwork` | sylar/util.cpp:53-77 | and converting big-endian bytes gives the number |
| `TypedIo.WriteFix` | sylar/bytearry.cpp:88-102 | fixed-width writes append big-endian bytes |
| `TypedIo.ReadFix` | sylar/bytearry.cpp:154-173 | fixed-width reads give back the number, or leave position and cursor as they were |
| `TypedIo.ReadExact` | sylar/bytearry.cpp:220-259 | all of the bytes, or position and cursor as before |
| `TypedIo.EncodeLoop` | sylar/bytearry.cpp:115-137 | the loop computes the encoding |
| `TypedIo.WriteVar` | sylar/bytearry.cpp:112-137 | appends the encoding of a value |
| `TypedIo.DecodeLoop` | sylar/bytearry.cpp:178-196 | the loop computes the decoding, which ShortExactly and GotMeans describe, and puts position and cursor back when data runs out |
| `TypedIo.ReadVar` | sylar/bytearry.cpp:175-218 | for all four kinds: out of range, with position and cursor as before, if and only if fewer unread bytes than the limit are there and all have the top bit set; else the position moves past the last byte and the value is the weighted sum cut to the width |
| `TypedIo.WriteStringWithLength` | sylar/bytearry.cpp:149-152 | the length, cut to 32 bits, and the bytes |
| `TypedIo.ReadString` | sylar/bytearry.cpp:239-249 | length and bytes, or neither |
| `TypedIo.StringRoundTrip` | sylar/bytearry.cpp:250-259 | a string shorter than 2^32 bytes comes back |
| `TypedIo.LongStringCut` | sylar/bytearry.cpp:149-152 | a longer one does not |
| `Streams.ReadFixLength` | sylar/stream.cpp:9-21 | succeeds if and only if the stream has the bytes and the portions before the first empty one add up to them, whatever their sizes; then these bytes, else all that arrived is consumed |
| `Streams.ReadFixLengthInto` | sylar/stream.cpp:22-34 | the same into a ByteArray, which keeps what arrived |
| `Streams.WriteFixLength` | sylar/stream.cpp:36-48 | all of the buffer is sent if and only if what the peer accepts before its first refusal adds up to it; else exactly that prefix |
| `Streams.WriteFixLengthFrom` | sylar/stream.cpp:49-61 | the same for the next unread bytes of a ByteArray, with the read position behind what was sent |
| `Streams.ReadInto` | sylar/stream.cpp:81-91 | contents as after write() of the bytes that arrived, which are as many as asked for, portioned and there; a failure changes no contents |
| `Streams.WriteFrom` | sylar/stream.cpp:155-165 | sends as much of the unread bytes as asked for and accepted, and moves past it |
| `ChunkedBody.ReadChunkedBody` | sylar/stream.cpp:93-144 | the buffered loop is the byte-wise decoder, for every way of splitting the input into reads; what that gives for a body that was sent is in SentReceived and ReadSent |
| `ChunkedBody.TakeSize` | sylar/stream.cpp:111-130 | a byte of a size line, with 64-bit wrap-around and the LF skipped in this read only |
| `ChunkedBody.TakeData` | sylar/stream.cpp:131-140 | as much chunk data as is there and wanted |
| `ChunkedBody.DigitOfLetter` | sylar/stream.cpp:112-121 | a byte counts as a digit if and only if it is that digit's character in 0123456789abcdef or 0123456789ABCDEF |
| `ChunkedBody.LineReads` | sylar/stream.cpp:112-121 | the hexadecimal digits of any number, in either case, have its value |
| `ChunkedBody.SizeWraps` | sylar/stream.cpp:112-121 | a size line of any length counts modulo 2^64 |
| `ChunkedBody.HugeChunkEnds` | sylar/stream.cpp:122-130 | so a size that is a multiple of 2^64 ends the body |
| `ChunkedBody.Fragmented` | sylar/stream.cpp:93-144 | for any chunks, any bytes behind them and any split: body and remained are right if and only if every size line cut between CR and LF belongs to a chunk of LF bytes and the last line is whole |
| `ChunkedBody.Received` | sylar/stream.cpp:93-144 | the same in terms of the reads; in particular they are right when no size line is cut |
| `ChunkedBody.SentReceived` | sylar/stream.cpp:93-144 | a body sent in pieces, each behind its length in hexadecimal digits, and a line 0: it comes back, with the count of bytes beyond, if and only if the fragmentation does no harm |
| `ChunkedBody.ReadSent` | sylar/stream.cpp:93-144 | the same of the method's own results |
| `HttpSession.RecvRequest` | sylar/http/http_session.cpp:15-58 | the body is exactly the content-length bytes after the header; behind a header that is there the request fails if and only if window, stream and portions before the first empty one fall short of the body; bytes behind it are lost if and only if the window left at the header's end is longer than the body, and how many; and why there is no request |
| `HttpSession.ReceiveSome` | sylar/http/http_session.cpp:22-39 | the window holds the bytes between parser and socket, and stays below the buffer size |
| `HttpSession.RecvHeader` | sylar/http/http_session.cpp:20-39 | the loop ends as the numbers of the reads and of the parser say, with the bytes behind the header in the window |
| `HttpSession.ReadBehind` | sylar/http/http_session.cpp:22-39 | what is left in the window is what was read behind the header |
| `HttpSession.EagerHeader` | sylar/http/http_session.cpp:20-39 | a parser that takes all it is given gets its header if and only if the header's bytes arrive, in portions of any size, cut to the buffer |
| `HttpSession.SecondRequestIsLost` | sylar/http/http_session.cpp:15-58 | two requests that arrive together: after the first was received the second is gone |
| `HttpSession.ReadBody` | sylar/http/http_session.cpp:40-56 | what the window holds of the body, and the rest from the socket, which is read exactly to the body's end if the window was shorter; there is a body if and only if the missing bytes arrive, in portions of any size |
| `Addresses.PrefixLaws` | sylar/address.cpp:281-297 | network <= address <= broadcast, they are 2^(w-p) - 1 apart, and two addresses share a network exactly when their top p bits agree |
| `Addresses.MaskValue` | sylar/address.cpp:172-177 | bit_mask(p) is p ones above w - p zeros, and all ones beyond the width |
| `Addresses.PrefixWord` | sylar/address.cpp:281-297 | the masked word in network byte order is the formula on the number |
| `Addresses.LawsV4` | sylar/address.cpp:281-297 | the three laws on the bytes of an IPv4 address |
| `Addresses.NetworkV6` | sylar/address.cpp:360-368 | the byte loop clears all bits behind the prefix |
| `Addresses.BroadcastV6` | sylar/address.cpp:350-358 | the byte loop sets them |
| `Addresses.PrefixBytes` | sylar/address.cpp:350-368 | the byte loops equal the formula on the whole number |
| `Addresses.LawsV6` | sylar/address.cpp:350-368 | the three laws on the bytes of an IPv6 address |
| `Addresses.CountBits` | sylar/address.cpp:131-134 | the loop counts the bits that are set |
| `Addresses.CountMaskBits` | sylar/address.cpp:139-145 | so does the loop over bytes |
| `Addresses.MaskBits` | sylar/address.cpp:172-177 | counting the bits of bit_mask(p) gives p |
| `Addresses.NetmaskBits` | sylar/address.cpp:139-145 | and so for the bytes of an IPv6 netmask |
| `LogPattern.LogFormatter.InitItems` | sylar/log.cpp:556-644 | the loop leaves the items of the pattern, or none if it is not legal |
| `LogPattern.LogFormatter.constructor` | sylar/log.cpp:547-554 | the default pattern for an empty one; an illegal one is cleared |
| `LogPattern.LogFormatter.ReadGroup` | sylar/log.cpp:580-588 | the text in braces, up to the first closing one |
| `LogPattern.LogFormatter.TakeField` | sylar/log.cpp:569-588 | the field at a per cent sign, or that there is none |
| `LogPattern.Accepted` | sylar/log.cpp:556-644 | a pattern is accepted if and only if it is in the grammar |
| `LogPattern.SingleField` | sylar/log.cpp:574-630 | a field by itself is legal if and only if its letter is one of mprctFfNdlnT; the date gets the usual format, every other field is what its letter says |
| `LogPattern.BareAfter` | sylar/log.cpp:556-634 | text, a field without a group, and anything that does not open one: the text as one literal, the field, and the items of the rest |
| `LogPattern.PrintParse` | sylar/log.cpp:589-634 | parsing what the printer wrote gives the same items |
| `LogPattern.ParsePrint` | sylar/log.cpp:556-644 | every accepted pattern has normal items and means the same as their print |

## Left out

- Fibers and stack blocks are indexed records in sequences, not heap objects with shared pointers; destruction is not modelled.
- Stack overflow, registers, alignment and the assembly of the switch: a switch is a transfer of control that carries the stack pointer. What the main fiber computes between switches is not modelled; it keeps the thread's own stack.
- FiberSharedStackPool fills its array with one block (sylar/fiber.cpp:37), so all its fibers share it; the model allows any assignment of fibers to blocks.
- Migration of a shared-stack fiber to another thread.
- The pending-event counter of the epoll loop, and events_ masks beyond the two directions.
- The wait part of hook_iofunc with its timeout; its two ingredients, timers and registrations, are modelled.
- IOManager::add_event, del_event, cancel_event and cancel_all, which look a registration up and keep the counter.
- IoEvents.Perform: epoll_ctl succeeds wherever calls interleave; what its failure leaves is in AddEvent and DelEvent.
- IoEvents.PerformAll: likewise.
- IoEvents.WakeOnce: likewise.
- IoEvents.EachOnce: likewise.
- IoEvents.OneWakeup: likewise.
- IOManager::idle beyond its timer handling: epoll_wait and the semaphore.
- Liveness: that a covered sleeper runs again needs fair workers and a clock that moves.
- Scheduling.Drain: fibers only yield, finish or spawn; sleeping fibers are in SleepDrain.
- SleepDrain.SleepersDrain: fibers are added from outside before stop, unpinned; fibers that spawn or pin others are in Scheduling. The pending-event count of can_stop is zero, since there are no events in this model.
- SleepDrain.EndedExactly: for runs in which nobody is queued a second time; after that two incarnations of a fiber may end it twice or not at all.
- SleepLosses.LostExactly: for the same runs.
- SleepProtocol: the fiber that runs a timer's callback raises the active count with its first step and lowers it with its last.
- ByteArrayRuns.Perform: a set_write_position that would leave the array unsound is not made; which those are is in ByteArray.SetWritePosition.
- ByteArrayRuns.Run: likewise.
- Conditional timers (a weak pointer that guards the callback) and the callbacks themselves.
- TypedIo.ReadExact: stands for the float and double reads and read_string_with_length; the meaning of floating-point bits is not modelled.
- The host is little-endian; bit operations on unsigned words are written as arithmetic on natural numbers.
- ByteArray positions are unbounded; overflow of size_t is not modelled there.
- Header and URI grammars, which are generated automata: a header parser is known by its contract only. HttpConnection, which repeats the receive loop for responses.
- Chunk extensions and trailers.
- Sockets, DNS, interface enumeration, configuration, log appenders, servlets, threads and mutexes as objects of their own.
