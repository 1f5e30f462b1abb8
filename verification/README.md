# A verified model of the sylar coroutine server framework

sylar runs fibers on N worker threads over a shared queue, parks them on epoll events and timers behind
hooked system calls, and moves bytes through a node-chained `ByteArray`, HTTP bodies and socket addresses.
This project models those parts in Dafny and proves what they are for.

The concurrent parts are transition systems: each worker or call has a program counter, each block under a
lock is one step, and the kernel, the clock and user code are nondeterministic. A run is any finite sequence
of steps, and the theorems quantify over all runs. `ByteArray`, `TimerManager` and `Stream` are classes whose
methods update their fields in place; their contracts tie the new state to a flat or ordered model. Codecs,
parsers and masks are functions and loops with an independent definition on the other side.

| file | models |
|---|---|
| `Common.dfy`, `Runs.dfy` | shared types; runs of a transition system and the states they reach |
| `Scheduler.dfy`, `Tasks.dfy` | `Scheduler::run`, `stop`, `schedule`, the fiber state machine, and what becomes of each submitted task |
| `IoManager.dfy`, `Sections.dfy` | `addEvent`, `delEvent`, `cancelEvent`, `cancelAll`, `triggerEvent`, `idle`, the close hook as it interleaves with them, and what each call does from beginning to end |
| `DoIo.dfy` | the park, timeout and retry protocol of `do_io` |
| `Timers.dfy` | `TimerManager`, `Timer`, and the idle wait |
| `Blocks.dfy`, `ByteArray.dfy`, `FlatArray.dfy` | the node chain, `write`, `read`, `setPosition`, `clear`, the iovec builders, and their flat reading |
| `Codec.dfy`, `Message.dfy`, `TypedArray.dfy` | zigzag, varints, fixed-width integers, strings, and typed messages through a `ByteArray` |
| `HttpBody.dfy`, `Chunked.dfy`, `Sender.dfy` | streams of short reads, Content-Length bodies, the chunked decoder and its size-line machine, and the sender's side of both |
| `IPv6.dfy` | `IPv6Address::insert`, `broadcastAddress`, `subnetMask`, `networdAddress`, `CountBytes` |

`dafny verify dfyconfig.toml` checks everything.

## Where the code and its intent differ

Each difference is a parameter or a fault outcome of the model, with the exact condition under which the code
does what it is meant to do.

- `write` advances the position by the room of the last node it touched (`sylar/bytearray.cc:407`), where
  `read` advances by the bytes copied. `ByteArray.Landed` and `TypedArray.EndOfExact`: the two agree exactly
  if every write of something ends on a node boundary, which nodes of one byte guarantee.
- `read` of zero bytes dereferences the cursor, which is null at the end of the chain
  (`sylar/bytearray.cc:433-437`). `TypedArray.RoundTrip`: a message that ends in an empty string and fills its
  last node is written but cannot be read back.
- The two-argument `getReadBuffers` compares each node's room with the whole length
  (`sylar/bytearray.cc:637`). `ByteArray.GetReadBuffers` gives the exact condition.
- `YieldToHold` publishes HOLD before the context is saved (`sylar/fiber.cc:179`), so a woken fiber can be taken
  while its worker is still on its stack. It does not help to wake it only after the switch: the worker has yet to
  test the fiber's state (`sylar/scheduler.cc:226-234`), and may find READY, written by the next worker, and queue it
  again (`SchedulerModel.LateWakeShare`). As written, the code keeps stacks apart exactly if each suspension is woken
  once, and only when no worker has the fiber any more (`SchedulerModel.StacksApartIff`).
- The close hook ignores what `cancelAll` returns and calls `close_f` later, without a lock
  (`sylar/hook.cc:569-573`), so it does not keep kernel and table in step: an `addEvent` in between, or a failed
  `cancelAll`, leaves an event registered on a closed fd. `IoManagerModel.KernelRunIff` and
  `IoManagerModel.KernelAgreementIff` give the exact conditions, for one run and for all.
- `idle` triggers reported events without masking them by the registered ones (`sylar/iomanager.cc:480-488`). The
  assertion in `triggerEvent` fails only after a report that names a registered and an unregistered event
  (`IoManagerModel.MixedAlways`), and then does (`IoManagerModel.MixedDooms`).
- The cast of the idle timeout to `int` can come out negative, which epoll takes as no timeout
  (`sylar/iomanager.cc:397-405`). `Timers.EpollTimeoutIff`.
- An `epoll_wait` interrupted by a signal is called again with the full timeout (`sylar/iomanager.cc:398-417`).
  `Timers.UninterruptedIff`: the whole wait keeps to the timeout exactly if it is not interrupted.
- The positional `read` starts in the cursor's node whatever position is passed (`sylar/bytearray.cc:469-472`).
  `ByteArray.ReadAt`: it reads the range at that position exactly if the position lies in that node.
- In chunk mode the parser starts afresh on every call (`sylar/http/http_parser.cc:235-238`), so the part of a
  size line before a read boundary is lost. `Chunked.CutLineIff` says for every size line what becomes of it.
- The size-line grammar knows no white space and no quoted strings in extensions, which section 7.1.1 of RFC 9112
  allows. `Chunked.NoSpaceAfterSize` and `Chunked.NoQuotedValue`: such a line is an error.
- `networdAddress` masks with the host bits (`sylar/address.cc:481`). `IPv6.NetworkAddress`.
- `readFixSize` returns its `size_t` length as an `int` (`sylar/stream.cc:19`). `HttpBody.FixedBody`.

## Model

| member | source | states |
|---|---|---|
| `SchedulerModel.NoTaskLost` | sylar/scheduler.cc:183-292 | In every run of any number of workers, with no outside call once both stop flags are set: when every worker has left `run`, the queue holds no unpinned entry. Entries skipped because their fiber is EXEC are included. What becomes of the dequeued ones is `SchedulerTasks.AllTasksDone`. |
| `SchedulerTasks.TasksConserved` | sylar/scheduler.cc:188-275 | Over every run under every policy, with the submissions numbered: each is in one place, which is the queue, in the order of submission; or one worker about to swap in just that fiber, or its own fiber loaded with just that callback; or behind exactly one `swapIn`; or it was a fiber in TERM or EXCEPT when a worker came to it. Every `swapIn` of `run` serves one submission. |
| `SchedulerTasks.AllTasksDone` | sylar/scheduler.cc:183-292 | When every worker has left `run`, every callback submitted without a thread has been swapped in exactly once, and so has every such fiber unless it had ended when a worker came to it. |
| `SchedulerTasks.TakesOldest` | sylar/scheduler.cc:191-217 | A scan takes the oldest submission that its worker may run, and comes away empty only if there is none. |
| `SchedulerTasks.ReadyAlways` | sylar/scheduler.cc:226-259 | In every run a fiber that is READY is queued or in the hands of a worker: one that yields comes back. |
| `SchedulerTasks.RunIsLogged` | sylar/scheduler.cc:183-275 | Every run of the scheduler is a logged run without its log, so the three results above are about all runs. |
| `SchedulerModel.InvAlways` | sylar/scheduler.cc:188-217 | The invariant behind it: while an unpinned entry is queued some worker will scan again, an EXEC fiber has a worker on it, and a worker quits only after both stop flags are set. |
| `SchedulerModel.SomeoneWillScanStep` | sylar/scheduler.cc:262-291 | Every step keeps it; a worker that finds nothing although an unpinned entry is left leaves behind another worker that runs that entry's fiber. |
| `SchedulerModel.ActiveCount` | sylar/scheduler.cc:211-275 | In every run the active count is the number of workers between dequeue and decrement, through all three decrement sites, and never negative; when `stopping` is true no worker is between the two, and one with a fiber holds it only to settle or re-queue it. |
| `SchedulerModel.CountZero` | sylar/scheduler.cc:295-304 | The count is zero exactly if no worker is between dequeue and decrement. |
| `SchedulerModel.CustodyAlways` | sylar/fiber.cc:108-129 | In every run with one wake-up per suspension, and late publication or wake-ups that wait until no worker has the fiber: each fiber has one owner, its state fits its owner's program counter, it has at most one outstanding wake-up, and a queued fiber that a worker has is EXEC. |
| `SchedulerModel.SafePolicyIsSafe` | sylar/scheduler.cc:204-258 | In those runs no fiber is on two stacks, the assertions of `swapIn` and `reset` never fail, and at the loop head `cb_fiber` is null or INIT. |
| `SchedulerModel.StacksApartIff` | sylar/fiber.cc:175-182 | Stacks stay apart in every run if and only if each suspension is woken once and, when `YieldToHold` publishes HOLD itself as the code does, only when no worker has the fiber any more; every failing policy has a concrete run. |
| `SchedulerModel.LateWakeShare` | sylar/scheduler.cc:226-234 | With an early HOLD, a fiber woken only after its context is saved still ends up on two stacks: its first worker reads the READY of its second and queues it again. |
| `SchedulerModel.TwiceShare` | sylar/scheduler.cc:204-217 | Woken twice, a fiber ends up on two stacks wherever HOLD is published. |
| `IoManagerModel.InvAlways` | sylar/iomanager.cc:169-348 | In every interleaving: a context holds a waiter exactly while its bit is set or its waiter is on its way to the queue, the count is what the open sections owe, and registrations are held at most once. |
| `IoManagerModel.ExactlyOnce` | sylar/iomanager.cc:90-111 | Every accepted registration is in exactly one condition: held by one context, deleted, or queued exactly once; the assertion on a dirty context never fails. Which call settles it is `IoSections.SectionsKept`. |
| `IoSections.SectionsKept` | sylar/iomanager.cc:188-348 | From beginning to end of every call, in every run: a successful `addEvent` sets its bit and fills its context; a successful `delEvent` deletes exactly the registration of its event; `cancelEvent` queues exactly that one; `cancelAll` queues every one, READ first; `idle` queues exactly the registered events that the report names, an error or hang-up naming all. The other event keeps its bit and context, and a call that fails changes neither. |
| `IoSections.QuietOutside` | sylar/iomanager.cc:440-489 | Outside sections nothing is queued, deleted or registered, and no bit or context changes. |
| `IoSections.RunIsLogged` | sylar/iomanager.cc:188-348 | Every run is a logged run without its log, so `SectionsKept` is about all runs. |
| `IoManagerModel.PendingConserved` | sylar/iomanager.cc:212-213 | The pending count never underflows and, when no section is open, equals the number of set event bits. |
| `IoManagerModel.VisibleHandoff` | sylar/iomanager.cc:366-373 | When the pending count reads zero, every registration has been queued or deleted or is just being deleted, so `stopping` cannot miss one. |
| `IoManagerModel.KernelRunIff` | sylar/iomanager.cc:197-213 | In every run, failed `epoll_ctl` calls and any interleaving of the close hook included: the kernel interest is what the table and its open sections say, in each state of the run, if and only if no `close_f` ran while an event was registered. |
| `IoManagerModel.KernelAgreement` | sylar/iomanager.cc:247-263 | In such runs, outside sections the kernel interest is the event bits (absent when zero), and ADD is never issued for a present fd nor MOD or DEL for an absent one. |
| `IoManagerModel.CloseAlways` | sylar/iomanager.cc:305-348 | The assertion at the end of `cancelAll` never fails; and a `close` whose `cancelAll` did not fail, and since which no `addEvent` has reached the kernel, has no event under it. |
| `IoManagerModel.KernelAgreementIff` | sylar/hook.cc:556-574 | Kernel and table agree in every run if and only if `close_f` is held back until `cancelAll` has not failed and no `addEvent` has reached the kernel since; the hook does not hold it back. |
| `IoManagerModel.OvertakenRun` | sylar/hook.cc:569-573 | A run of the hook that breaks it: `cancelAll` finds nothing, `addEvent` registers, `close_f` runs. |
| `IoManagerModel.FailedCancelRun` | sylar/iomanager.cc:326-333 | Another: the `epoll_ctl` of `cancelAll` fails, and `close_f` runs all the same. |
| `IoManagerModel.MixedAlways` | sylar/iomanager.cc:454-467 | The assertion at the head of `triggerEvent` fails in no run unless `idle` has handled, unmasked, a report that names a registered and an unregistered event. |
| `IoManagerModel.EndingIff` | sylar/iomanager.cc:90-111 | Past its `epoll_ctl`, a section ends in that assertion if and only if it has an unregistered event to trigger and meets no null scheduler pointer before it. |
| `IoManagerModel.MixedDooms` | sylar/iomanager.cc:464-489 | Handling such a report dooms its section to the assertion, unless `epoll_ctl` fails or the scheduler pointer of READ is null. |
| `IoManagerModel.DoomedStep` | sylar/iomanager.cc:480-489 | A doomed section stays doomed whatever runs next, and each of its own steps brings it closer to the assertion. |
| `IoManagerModel.TriggerAssertionIff` | sylar/iomanager.cc:464-489 | The assertion holds in every run if and only if `idle` masks the reported events; a concrete run fails it. |
| `DoIoModel.InvAlways` | sylar/hook.cc:240-313 | In every run: a call is parked exactly while it is the one registered on its slot, an armed timer is the one its owner is about to cancel, and a call is marked exactly if a callback of its own wrote the mark. |
| `DoIoModel.DoIoSound` | sylar/hook.cc:254-313 | A call that has returned left neither registration nor armed timer, and returned its last system call's final outcome, or a failed registration, or a timeout that its own callback wrote. Who can time out is `DoIoModel.TimeoutIff`. |
| `DoIoModel.TimeoutIff` | sylar/hook.cc:248-313 | In every run: a call without a timeout owns no timer, is never marked and never returns ETIMEDOUT; a call with one that is registering, parked, undoing or woken has a timer of its own, the last it armed. Every call past the first try has met EAGAIN last, and a returned result is the last outcome. |
| `DoIoModel.Diagram` | sylar/hook.cc:250-313 | Where each step of a call leads: EINTR to another try, EAGAIN to the timer and the registration, a failed registration to its error, a wake-up to the mark; no other step moves it but its wake-up. |
| `DoIoModel.WakeIff` | sylar/hook.cc:266-303 | In every run a parked call is woken by a trigger of its fd and event, or by the `cancelEvent` of a callback for them, and by nothing else; it is marked by its own callbacks, and by nothing else. |
| `DoIoModel.RaceRuns` | sylar/hook.cc:254-313 | The race goes both ways: a concrete run that times out, and for any result one in which the event comes first and the next try returns it. |
| `DoIoModel.LeftoversAreHarmless` | sylar/hook.cc:266-278 | In any state, a step of another call or of its callback can at most wake this call; a returned result never changes. |
| `DoIoModel.ReadMarkIff` | sylar/hook.cc:298-310 | In every run, a call that reads its mark returns with ETIMEDOUT if and only if a callback of its own has written it, whoever overtook whom; otherwise it tries again. |
| `Timers.RolloverMeans` | sylar/timer.cc:199-210 | Rollover is seen exactly if the clock went back by more than an hour, or at all within the first hour of the epoch, where the subtraction underflows. |
| `Timers.FindIff` | sylar/timer.cc:38-39 | Searching by (deadline, address) finds a timer exactly if it is in the set. |
| `Timers.InsertKeeps` | sylar/timer.cc:7-23 | Insertion keeps the order, adds exactly the timer, and changes the front only to it. |
| `Timers.EraseKeeps` | sylar/timer.cc:52-52 | Erasing keeps the order, removes exactly that timer, and the front deadline does not get earlier. |
| `Timers.DueExact` | sylar/timer.cc:153-167 | In the sorted set the timers with deadline at or before now are exactly the first ones that are. |
| `Timers.ScanExact` | sylar/timer.cc:155-163 | `lower_bound` of the probe and the step over equal deadlines end exactly after the due timers, whatever the probe's address. |
| `Timers.ServeAllExact` | sylar/timer.cc:169-182 | Handing out timer by timer changes exactly those timers, and hands out every callback as it was before the loop. |
| `Timers.TimerManager.AddTimer` | sylar/timer.cc:94-100 | The new timer is inserted at now + ms in `uint64_t`; a wake-up is asked for exactly if it is the new front and none is pending; the invariant is kept. |
| `Timers.TimerManager.Cancel` | sylar/timer.cc:32-43 | True exactly if the callback is still set, and then the timer is in the set to be erased; afterwards it is out and its callback null. |
| `Timers.TimerManager.Refresh` | sylar/timer.cc:44-56 | True exactly if the callback is set; the deadline becomes now + period, the set keeps its members, and in a regular run no earlier deadline goes unnoticed although no wake-up is asked for. |
| `Timers.TimerManager.Reset` | sylar/timer.cc:57-86 | An unchanged period not counted from now returns true and changes nothing, cancelled or not; otherwise the timer restarts from now or from its last start, with both wrap-arounds. |
| `Timers.TimerManager.GetNextTimer` | sylar/timer.cc:117-136 | The time to the front deadline, zero if it has passed, all ones if there is none; the wake-up flag is cleared. |
| `Timers.TimerManager.ListExpired` | sylar/timer.cc:138-183 | Exactly the callbacks due at now, or all on rollover, in deadline order; one-shots leave the set with a null callback, recurring timers keep callback and period and are back at now + period in `uint64_t`, nothing else changes, and the set stays sorted. |
| `Timers.TimerManager.OneOutcome` | sylar/timer.cc:32-43 | In every valid state, a timer created with a callback is found by `find` exactly while the callback is set, and of a one-shot at most one of "cancel returned true" and "callback handed out" has happened, at most once. |
| `Timers.TimerManager.NoMissedDeadline` | sylar/timer.cc:184-198 | In a regular run without a pending wake-up, no deadline is earlier than the one the last `getNextTimer` saw. |
| `Timers.TimerManager.Run` | sylar/timer.h:66-121 | Any sequence of calls keeps the invariant, and what has happened to a timer stays on record. |
| `Timers.EpollTimeoutIff` | sylar/iomanager.cc:397-405 | The wait is within three seconds and within the time left if and only if the cast to `int` is not negative; it is the low 32 bits, at most three seconds, or negative. |
| `Timers.WaitLoop` | sylar/iomanager.cc:396-417 | Every `epoll_wait` of one wait gets the timeout of the first, however often it is interrupted; together they take at most that many timeouts. |
| `Timers.UninterruptedIff` | sylar/iomanager.cc:410-416 | Whatever each call takes, n calls stay within the one timeout if and only if n is one, that is, none is interrupted, or the timeout is zero. |
| `Timers.InterruptedRun` | sylar/iomanager.cc:410-416 | With one second to the deadline and a signal at 999 ms, the wait may last 1999 ms. |
| `Timers.TimerManager.IdleWait` | sylar/iomanager.cc:388-417 | With every deadline less than 2^31 ms away, no single call gets a timeout past the first deadline or three seconds, and the whole wait takes at most as many timeouts as there are calls. |
| `Blocks.PositionArithmetic` | sylar/bytearray.cc:396-398 | Node number and offset of a position are its quotient and remainder by the base size. |
| `Blocks.FlattenSplice` | sylar/bytearray.cc:402-425 | Overwriting part of one node is overwriting that part of the flat sequence. |
| `Blocks.SlicesDisjoint` | sylar/bytearray.cc:713-733 | The slices of a flat range are in different nodes, so they are disjoint. |
| `Blocks.GatherExact` | sylar/bytearray.cc:672-696 | The slices of a flat range, in order, hold exactly that range. |
| `ByteArrayModel.ByteArray.constructor` | sylar/bytearray.cc:22-26 | One node, position and size zero. |
| `ByteArrayModel.ByteArray.SetPosition` | sylar/bytearray.cc:498-519 | Throws exactly beyond the capacity; else position, size and cursor node are those of the flat reading and the bytes are unchanged. |
| `ByteArrayModel.ByteArray.Clear` | sylar/bytearray.cc:375-387 | Back to one node, the old root, position and size zero. |
| `ByteArrayModel.ByteArray.AddCapacity` | sylar/bytearray.cc:564-593 | The capacity becomes the next multiple of the base size that holds position + n; existing nodes and bytes stay. |
| `ByteArrayModel.ByteArray.Write` | sylar/bytearray.cc:389-425 | The bytes land at the position and nothing else of the old array changes; where position, size and cursor land under either advance. |
| `ByteArrayModel.ByteArray.Landed` | sylar/bytearray.cc:407-407 | Position, cursor and invariant are those of the flat reading if and only if the advance is by size or the bytes end on a node boundary. |
| `ByteArrayModel.ByteArray.Read` | sylar/bytearray.cc:427-461 | The flat range at the position, or an exception if too much is asked for, or the null cursor exactly for a read at capacity. |
| `ByteArrayModel.ByteArray.NullAtCapacity` | sylar/bytearray.cc:448-453 | The cursor is null exactly at capacity. |
| `ByteArrayModel.ByteArray.ReadAt` | sylar/bytearray.cc:462-497 | The range that starts in the cursor's node at the offset of the position passed, or an exception, or a null node; it is the range at that position if and only if the position lies in the cursor's node. |
| `FlatArray.Step` | sylar/bytearray.cc:375-461 | One call of write, read, setPosition or clear that lands exactly is one call of the flat machine, with its result. |
| `FlatArray.Run` | sylar/bytearray.cc:375-519 | Every run of such calls is a run of the flat machine, up to the first write that does not land exactly; with the advance by size there is none. |
| `ByteArrayModel.ByteArray.GetWriteBuffers` | sylar/bytearray.cc:699-733 | Room is added, and the vectors are exactly the stretches of [position, position + len). |
| `ByteArrayModel.ByteArray.SocketRead` | sylar/socket_stream.cc:27-41 | Filling any prefix of the vectors and moving the position never throws and is a flat overwrite or append. |
| `ByteArrayModel.ByteArray.GetReadBuffersAt` | sylar/bytearray.cc:656-697 | The length is clamped at the current position; the vectors are exactly the range at the position passed in, or the walk leaves the chain, exactly when that range does. |
| `ByteArrayModel.ByteArray.VectorsExact` | sylar/bytearray.cc:672-696 | Vectors that denote a range hold exactly its bytes. |
| `ByteArrayModel.ByteArray.GetReadBuffers` | sylar/bytearray.cc:623-654 | Exactly the range at the position if and only if the length fits a node or the range ends on a node boundary before the end of the chain; otherwise it walks off the chain. |
| `Codec.ZigzagSpec` | sylar/bytearray.cc:119-140 | The wrapping arithmetic computes the zigzag of the Protocol Buffers encoding, section "Signed Integers", for every w-bit value, the most negative included. |
| `Codec.ZigzagRoundTrip` | sylar/bytearray.cc:141-149 | Decoding undoes encoding. |
| `Codec.ZigzagOnto` | sylar/bytearray.cc:141-149 | Encoding undoes decoding, so zigzag is a bijection. |
| `Codec.VarintFits` | sylar/bytearray.cc:155-166 | The digits of every w-bit value fit the buffer of five or ten bytes. |
| `Codec.VarintRoundTrip` | sylar/bytearray.cc:284-301 | Shifting and or-ing the digits gives the value back and uses exactly its bytes, whatever follows. |
| `Codec.ReadVarintValue` | sylar/bytearray.cc:284-323 | On any bytes: reading stops at the first without the high bit or after five or ten bytes, runs out only if there are fewer, and gives the number of the low seven bits modulo 2^w. |
| `Message.ByteSwapReverses` | sylar/endian.h:11-35 | A swapped integer is stored most significant byte first, and swapping twice is the identity. |
| `Message.FixedRoundTrip` | sylar/bytearray.cc:65-117 | A fixed-width integer comes back, in either byte order; which order is stored is `Message.StoredAt`. |
| `Message.StoredAt` | sylar/bytearray.cc:75-117 | With the swap, byte i of a w-byte integer n is n / 256^(w-1-i) % 256; without it, n / 256^i % 256. |
| `Message.VarintAt` | sylar/bytearray.cc:173-198 | A varint has as many bytes as the value has digits of seven bits; byte i is digit i, with the high bit exactly on all but the last. |
| `Message.BytesSpelled` | sylar/bytearray.cc:65-222 | What each writer puts out, by index: fixed-width integers and varints as above, zigzag as Protocol Buffers has it, strings behind a prefix of 2, 4 or 8 bytes or a varint that holds the length. |
| `Message.ItemRoundTrip` | sylar/bytearray.cc:200-222 | For every writable typed value: its reader gives the value back from its writer's bytes and uses exactly those, whatever follows. |
| `TypedArray.EncodeVarint` | sylar/bytearray.cc:173-184 | The digit loop stays inside its buffer and produces the Base 128 Varints form. |
| `TypedArray.WriteItem` | sylar/bytearray.cc:55-222 | A write that lands exactly appends the bytes spelled out by index in `Message.BytesSpelled`, fixed-width integers and string prefixes in the array's byte order. |
| `TypedArray.ReadVar` | sylar/bytearray.cc:306-323 | Reading byte by byte from the node chain is the decoding function on the bytes ahead. |
| `TypedArray.ReadItem` | sylar/bytearray.cc:341-372 | A reader gives what parsing the bytes ahead gives, throws exactly if they do not suffice, and faults exactly for an empty string whose length ends the chain. |
| `TypedArray.EndOfExact` | sylar/bytearray.cc:402-425 | A list of writes leaves the position exactly past its bytes if and only if every write of something lands exactly. |
| `TypedArray.ExactByByte` | test/test_bytearray.cc:34-34 | With nodes of one byte every list of writes lands exactly. |
| `TypedArray.WriteAll` | sylar/bytearray.cc:55-222 | Writing a message appends its bytes, one item after the other, wherever the writes land exactly. |
| `TypedArray.ReadAll` | sylar/bytearray.cc:230-372 | If a message's bytes are ahead, reading its types returns its values and leaves nothing, unless the last read is of zero bytes at the end of the chain. |
| `TypedArray.RoundTrip` | sylar/bytearray.cc:55-372 | For every base size and message, written to a new array and read back from position zero: the array holds exactly the message's bytes if and only if every write lands exactly; then the values come back and nothing is left, unless the message ends in an empty string on a full node, where the last read faults. |
| `TypedArray.PadCanDecode` | sylar/bytearray.cc:407-407 | A write that does not land exactly can go unnoticed by the values: base size 2, one byte, then the varint of four digits 16, and a pad byte 0x90; both values come back although the array holds one byte too many. |
| `HttpBody.Stream.ReadFixSize` | sylar/stream.cc:5-20 | Exactly the next `length` bytes, never one more, under every pattern of short reads, unless a read fails. |
| `HttpBody.FixedBody` | sylar/http/http_session.cc:42-72 | Exactly the first `length` bytes after the header, whether buffered, partly buffered or unread, if and only if no read fails and what was left to read is positive as an `int`; never a byte read beyond, also when a read fails. |
| `Chunked.LineParses` | sylar/http/httpclient_parser.rl:150-154 | The machine takes exactly a whole size line, with any extensions and either line end, and its size is the value of the digits, which `ChunkSender.NumeralIff` ties to the hexadecimal digits as characters. |
| `ChunkSender.NumeralIff` | sylar/http/httpclient_parser.rl:95-105 | The value of a size line is n if and only if its digits are a numeral of n in `0123456789abcdef` or `0123456789ABCDEF`, each digit worth its position, leading zeros and mixed cases included. |
| `ChunkSender.FinishedIff` | sylar/http/httpclient_parser.rl:150-154 | The machine finishes with size n after k bytes if and only if these k bytes are a size line of the grammar whose digits are a numeral of n: it takes nothing else. |
| `ChunkSender.PendingIff` | sylar/http/http_parser.cc:233-243 | It takes a piece whole without a result if and only if the piece is a proper prefix of a size line. |
| `ChunkSender.SizeLineRead` | sylar/http/httpclient_parser.rl:95-105 | The size line written for any n, in either case, is read as n, whatever follows. |
| `ChunkSender.TokenIs` | sylar/http/httpclient_parser.rl:122-126 | A token is made of printing ASCII characters other than the listed specials. |
| `Chunked.ReadLine` | sylar/http/http_connection.cc:62-89 | The result is that of a fresh machine on the last piece the reads deliver, with that piece's size; every piece before it was taken without a result and is lost. So the size line seen is found if no read ends strictly inside it. |
| `Chunked.ReadChunk` | sylar/http/http_connection.cc:93-117 | A chunk's data and the two bytes after it come out exactly, from the buffer or across any further reads. |
| `Chunked.Receive` | sylar/http/http_connection.cc:57-118 | For every trailer-free body of size lines that the machine takes and sizes below 2^31 - 2, and every run of reads of which none fails or ends strictly inside a size line: the body is the concatenated chunk data, and what remains is what follows it. A piece of a size line already in the buffer is lost, and the rest decoded without it. |
| `ChunkSender.ReceiveSent` | sylar/http/http_connection.cc:57-118 | From sender to receiver: a body cut into any pieces, each behind the hexadecimal of its length, comes out whole under every run of reads of which none fails or ends strictly inside a size line. |
| `Chunked.CutBody` | sylar/http/http_connection.cc:57-118 | A wrong body: of a chunk of seventeen bytes whose size line "11" is cut after its first digit, the decoder makes the body "A", and reports no error. |
| `Chunked.PrefixPending` | sylar/http/http_parser.cc:233-243 | Every proper prefix of a size line is taken whole, without a result. |
| `Chunked.CutDigits` | sylar/http/http_parser.cc:233-243 | The rest of a size line cut among its digits is taken for a line of its own. |
| `Chunked.CutLineIff` | sylar/http/http_parser.cc:233-243 | For every size line, with or without extensions, and every cut: what follows the cut is taken for a line of its own if and only if it starts with hexadecimal digits and a separator or line end right behind them; the size is then theirs; otherwise it is an error or taken for a status line. |
| `Chunked.CutPlainIff` | sylar/http/httpclient_parser.rl:95-105 | Without extensions: the size survives if and only if the cut is among the digits and the lost ones are zeros; with no digit left it is an error. |
| `Chunked.NoSpaceAfterSize` | sylar/http/httpclient_parser.rl:150-154 | White space, or anything but a digit, a semicolon or a line end, behind the digits is an error. |
| `Chunked.NoQuotedValue` | sylar/http/httpclient_parser.rl:150-154 | A quoted extension value, or one that starts with anything but a token character, is an error. |
| `IPv6.MaskBits` | sylar/address.cc:15-19 | Which bits `CreateMask` sets, clears and keeps, for every bit count and byte. |
| `IPv6.SubnetMask` | sylar/address.cc:489-501 | Exactly the first `prefix` bits are set. |
| `IPv6.BroadcastAddress` | sylar/address.cc:467-476 | The address on the bits of the prefix, ones on all others. |
| `IPv6.NetworkAddress` | sylar/address.cc:478-487 | What it computes bit by bit; it is the network address if and only if the byte that holds the end of the prefix is zero. |
| `IPv6.CountBytes` | sylar/address.cc:20-29 | The number of set bits. |
| `IPv6.PrefixLength` | sylar/address.cc:169-178 | Summed over a prefix mask, up to the all-ones mask of prefix 128, it gives the prefix back. |
| `IPv6.TextExpands` | sylar/address.cc:435-465 | Expanding the text, after section 2.2 of RFC 4291, recovers all eight groups. |
| `IPv6.GroupIs` | sylar/address.cc:437-455 | A group is 256 times the number of its first byte plus that of its second. |
| `IPv6.DigitIs` | sylar/address.cc:455-455 | A digit is printed as its position in `0123456789abcdef`, and read as that. |
| `IPv6.Insert` | sylar/address.cc:435-465 | From the sixteen address bytes, loaded as little-endian words and swapped: the loop prints the text of the eight groups with the first run of zeros compressed, and it expands to those groups. |
| `IPv6.TextInjective` | sylar/address.cc:435-465 | Different addresses print different texts. |

## Left out

- Closes that bypass the hook (hook disabled, no context or no IOManager on the thread): only the hook's own sequence is modelled.
- The growth of the fd table and its `contextResize` race (`sylar/iomanager.cc:155-185`): the table is large enough from the start.
- `EventContext::scheduler` has no initialiser (`sylar/iomanager.h:36`): it is taken to be null.
- The tickle pipe, `m_idleThreadCount` and every liveness claim: only safety is stated, also for timeouts in `do_io`.
- Absence of timers at worker exit: the checks of `IOManager::stopping` are not atomic.
- An idle fiber that ends in EXCEPT, and fibers switched by `call` and `back`.
- The early exits of `do_io` (no hook, no context, closed, not a socket), `connect_with_timeout`, and the hooked sleeps.
- `Timers.TimerManager.Refresh`: timers are records in a heap keyed by address, not objects with a reference count; a freed address is never used again. The private window between reading the clock and taking the lock is modelled by letting `AddTimer` and `ListExpired` take a stale sample.
- `ByteArrayModel.ByteArray.Write`: `addCapacity` divides exactly, where the code rounds a `double` up; the two differ only beyond 2^53 bytes.
- File I/O, `toString`, `toHexString`, `writeStringWithoutLength`, and floats, which are fixed-width integers by another name.
- `HttpBody.FixedBody`: the allocation of a very long body, and the header parser in front of it.
- `Chunked.Receive`: sizes from 2^31 - 2 on, where the code's `int` arithmetic overflows, and extensions with white space or quoted strings, which the machine refuses, are not covered; the buffer is a value of bounded length rather than an array shifted by `memmove`; a negative or overflowing size and a status line in chunk mode end in `Undefined`, of which nothing is claimed; the header field that the parser makes of a chunk extension is not modelled.
- `IPv6.Insert`: the brackets and the port around the text. Prefixes of 128 and more, which index past the address, are excluded. IPv4 masks are the same arithmetic on one word.
- The HTTP request parser, URIs, servlets, configuration, logging, DNS and interface lookup.
