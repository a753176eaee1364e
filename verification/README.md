# Lockstep event queue and Waiter pacing, modelled in Dafny

AirSim's lockstep mode runs the simulated world in step with the game engine's frames. The lockstep
clock (`FLockstep`) keeps one list of events sorted by due time:

- the periodic physics tick;
- one wake-up per paced worker: an RPC control command whose loop is throttled by a `Waiter`.

On every world tick the clock advances its frame time and drains every event due strictly before
it. A popped event is pushed back one period later. A physics event updates the world. A waiter
event hands the turn to its worker through a `WaiterSyncSignal`, a flag `working` that says whether
the worker or the master (the game thread) has the turn. The waiter's `sleep` is the worker's side
of that hand-off. With a free-running clock, it is an ordinary throttled sleep instead.

Module layout:

- `outcomes.dfy` (`Outcomes`): the `Result` type used where the source throws.
- `signals.dfy` (`SyncSignals`):
  - the cancel token;
  - `WaiterSyncSignal` as the class `SyncSignal`: the flag, its two writers, and the two waits, each
    specified by its release condition.
- `event_queue.dfy` (`EventQueue`): the queue as values (`seq<Event>`). It holds:
  - insertion, pop-and-reschedule, removal and the selection of cancelled waiters, as functions;
  - `Drain`, the whole drain of one world tick, as a function terminating on a backlog measure;
  - lemmas: sortedness, FIFO ties, permutation, the register/unregister round trip, drain
    ordering and the periodic re-insertion;
  - a concrete schedule with a 3 ms physics period and a 20 ms waiter.
- `lockstep.dfy` (`LockstepClock`): the class `Lockstep`, whose `events` field the methods reassign
  as `insert`/`erase` do. Each method is proved against the functions of `EventQueue`. `WorldTick`'s
  drain loop is proved to produce exactly `Drain` of the old list. Each signal's flag ends set
  exactly when it was already set or its waiter fired.
- `waiter.dfy` (`Waiters`): the class `Waiter`, with its constructor, destructor (`Dispose`),
  `Sleep`, `Complete` and the timeout query.

Conventions:

- Time is an integer number of nanoseconds.
- The clock's current time is a parameter `now`.
- A signal is an object, so two events carry the same signal exactly when the source's
  `shared_ptr`s are equal.
- A physics event carries `null`.

Two behaviours of the drain come straight from the code:

- **Strict boundary.** An event is popped only when it is due strictly before the frame time
  (Unreal/Plugins/AirSim/Source/Lockstep.cpp:200), so an event due exactly at the frame time
  stays queued.
  - Example: a 3 ms physics event and a 20 ms waiter, both registered at time 0, drained to 21 ms.
  - The result: six physics ticks (3 to 18 ms), then the waiter at 20 ms.
  - The 21 ms tick stays queued (`EventQueue.ScenarioPhysicsAndWaiter`).
- **Wait before signal.** For a waiter event, the drain first waits for the worker to hand back
  (`waitForWorker`), then hands it the turn (`signalToWorker`)
  (Unreal/Plugins/AirSim/Source/Lockstep.cpp:129-130).

## Model

| member | source | states |
|---|---|---|
| SyncSignals.SyncSignal.constructor | AirLib/include/common/Waiter.hpp:25-28 | a new signal starts with the given turn and is tied to its command's cancel token |
| SyncSignals.SyncSignal.IsCancelled | AirLib/include/common/Waiter.hpp:54-57 | whether the paired command's token is cancelled (no ensures of its own); what cancellation does to the worker's wait is `WaitForMaster`'s contract |
| SyncSignals.SyncSignal.WorkerMayRun | AirLib/include/common/Waiter.hpp:51 | the worker's release condition: the flag is set, or the command is cancelled (no ensures of its own) |
| SyncSignals.SyncSignal.MasterMayRun | AirLib/include/common/Waiter.hpp:44 | the master's release condition: the worker has handed back. It reads only the signal's own flag, so cancellation never releases the master (no ensures of its own) |
| SyncSignals.SyncSignal.SignalToWorker | AirLib/include/common/Waiter.hpp:30-33 | the flag becomes true: the worker's wait is released and the master's is not |
| SyncSignals.SyncSignal.SignalToMaster | AirLib/include/common/Waiter.hpp:35-38 | the flag becomes false: the master's wait is released |
| SyncSignals.SyncSignal.WaitForWorker | AirLib/include/common/Waiter.hpp:41-45 | returns only once the flag is false; if it already was, nothing changes; cancellation plays no part: the token is left as it was, and a cancelled command does not release the master |
| SyncSignals.SyncSignal.WaitForMaster | AirLib/include/common/Waiter.hpp:48-52 | returns only once the flag is true or the command is cancelled; a command already cancelled on entry returns at once, with nothing changed; otherwise only the master's notifying hand-off wakes it, so it returns with the flag set, and with the token cancelled exactly when the command was cancelled while it waited |
| EventQueue.InsertionPoint | Unreal/Plugins/AirSim/Source/Lockstep.cpp:214 | the position found is the first whose event is due strictly later; everything before it is due no later |
| EventQueue.Insert | Unreal/Plugins/AirSim/Source/Lockstep.cpp:214-215 | the find-and-insert: the new event goes before the first event due strictly later, and the list is one element longer (its order, ties and contents are stated by the four lemmas below) |
| EventQueue.InsertSorted | Unreal/Plugins/AirSim/Source/Lockstep.cpp:212-216 | inserting into a sorted list keeps it sorted |
| EventQueue.InsertKeepsOrder | Unreal/Plugins/AirSim/Source/Lockstep.cpp:212-216 | the new event sits at the insertion point; removing it gives back the old list, so the old events keep their order |
| EventQueue.InsertAfterTies | Unreal/Plugins/AirSim/Source/Lockstep.cpp:214-215 | in a sorted list, exactly the events due no later than the new one come before it: ties are first in, first out |
| EventQueue.InsertPermutes | Unreal/Plugins/AirSim/Source/Lockstep.cpp:212-216 | the new list is the old one plus the new event, as a multiset |
| LockstepClock.Lockstep.constructor | Unreal/Plugins/AirSim/Source/Lockstep.cpp:20-23 | a new clock has an empty, sorted event list and has not yet started its frame time |
| LockstepClock.Lockstep.PushEvent | Unreal/Plugins/AirSim/Source/Lockstep.cpp:212-216 | the linear find and insert leave exactly `Insert` of the old list |
| LockstepClock.Lockstep.PopEvent | Unreal/Plugins/AirSim/Source/Lockstep.cpp:195-210 | empty list: error, unchanged. Front due at or after `until`: not popped, unchanged. Otherwise: returns the old front, and the list becomes `PopNext` of the old list |
| EventQueue.Reschedule | Unreal/Plugins/AirSim/Source/Lockstep.cpp:206 | the pushed-back copy keeps the event's type, period and signal, and with a positive period it is due strictly later than the fired one |
| EventQueue.PopNext | Unreal/Plugins/AirSim/Source/Lockstep.cpp:203-206 | the erase of the front and the push of its rescheduled copy: the list keeps its length (its contents and order are stated by the lemmas below) |
| EventQueue.PopNextElements | Unreal/Plugins/AirSim/Source/Lockstep.cpp:200-207 | after a pop, the list holds the old tail plus the front's copy one period later (same type, period and signal) |
| EventQueue.PopNextSorted | Unreal/Plugins/AirSim/Source/Lockstep.cpp:200-207 | a pop keeps a sorted list sorted |
| EventQueue.PopNextKeeps | Unreal/Plugins/AirSim/Source/Lockstep.cpp:200-207 | a pop keeps the type/signal pairing, positive periods and the set of registered signals |
| EventQueue.NothingDue | Unreal/Plugins/AirSim/Source/Lockstep.cpp:200-209 | when the front of a sorted list is not due, no event in it is |
| LockstepClock.Lockstep.RegisterWaiter | Unreal/Plugins/AirSim/Source/Lockstep.cpp:161-166 | a waiter event carrying the signal is inserted at now + period; the list stays sorted and well-typed |
| LockstepClock.Lockstep.RegisterPhysicsEvent | Unreal/Plugins/AirSim/Source/Lockstep.cpp:218-222 | a physics event without a signal is inserted at now + period; the list stays sorted and well-typed |
| LockstepClock.Lockstep.UnregisterWaiter | Unreal/Plugins/AirSim/Source/Lockstep.cpp:168-176 | the list becomes `Unregister` of the old list, and stays sorted and well-typed |
| EventQueue.SignalIndex | Unreal/Plugins/AirSim/Source/Lockstep.cpp:172-173 | the `find_if`: no event before the position carries the signal, and the event at it does; the length when none does |
| EventQueue.Unregister | Unreal/Plugins/AirSim/Source/Lockstep.cpp:172-175 | an unregistered signal leaves the list unchanged; a registered one removes exactly one event |
| EventQueue.UnregisterKeeps | Unreal/Plugins/AirSim/Source/Lockstep.cpp:168-176 | exactly the first event carrying the signal is erased, the others stay in order; sortedness and well-typedness are kept |
| EventQueue.RegisterUnregister | Unreal/Plugins/AirSim/Source/Lockstep.cpp:161-176 | registering a new signal and then unregistering it gives back the original list |
| EventQueue.CancelledSignals | Unreal/Plugins/AirSim/Source/Lockstep.cpp:183-187 | only registered signals with a cancelled token are selected |
| EventQueue.CancelledSignalsExact | Unreal/Plugins/AirSim/Source/Lockstep.cpp:183-187 | a registered signal is selected if and only if its command is cancelled |
| EventQueue.CancelledSignalsAppend | Unreal/Plugins/AirSim/Source/Lockstep.cpp:184-187 | the selection scans front to back: one more event appends its signal exactly when it is present and cancelled |
| LockstepClock.Lockstep.CollectCancelled | Unreal/Plugins/AirSim/Source/Lockstep.cpp:180-188 | the collecting loop returns `CancelledSignals` of the list, in queue order |
| LockstepClock.Lockstep.SignalWorkers | Unreal/Plugins/AirSim/Source/Lockstep.cpp:190-192 | every collected worker has the turn afterwards |
| LockstepClock.Lockstep.SignalCanceledWaiter | Unreal/Plugins/AirSim/Source/Lockstep.cpp:178-193 | the list is unchanged; a registered signal's flag is set exactly when it was already set or its command is cancelled |
| LockstepClock.Lockstep.Fire | Unreal/Plugins/AirSim/Source/Lockstep.cpp:120-132 | a waiter event leaves its worker with the turn; a physics event touches no signal |
| LockstepClock.Lockstep.FireNext | Unreal/Plugins/AirSim/Source/Lockstep.cpp:118-133 | one loop turn: `PopEvent`'s three outcomes; the list stays sorted and well-typed, keeps positive periods if it had them, and keeps its signals; only the popped waiter's flag changes, and it is set |
| EventQueue.PopLowersBacklog | Unreal/Plugins/AirSim/Source/Lockstep.cpp:118-134 | with positive periods, each pop lowers the total lag behind the frame time, so the drain loop ends |
| EventQueue.Drain | Unreal/Plugins/AirSim/Source/Lockstep.cpp:118-134 | the `while (PopEvent(...))` loop: pop while the front is due strictly before the frame time; the list left is as long as the input, and the drain ends because each pop lowers the backlog (`PopLowersBacklog`) |
| EventQueue.DrainFiresDue | Unreal/Plugins/AirSim/Source/Lockstep.cpp:118-134 | every drained event was due strictly before the frame time, and the list left keeps positive periods |
| EventQueue.DrainOrdered | Unreal/Plugins/AirSim/Source/Lockstep.cpp:118-134 | drained events come out in non-decreasing time; the list left is sorted, and nothing in it is due before the frame time |
| EventQueue.DrainSingle | Unreal/Plugins/AirSim/Source/Lockstep.cpp:200-207 | a lone periodic event fires at its due time and every period after, while due; it is then queued one period past the last firing, at or after the frame time |
| LockstepClock.Lockstep.DrainEvents | Unreal/Plugins/AirSim/Source/Lockstep.cpp:118-134 | empty list: error. Otherwise the loop fires exactly `Drain` of the old list and leaves its rest; all fired are due before `until`, all left at or after it; a signal ends set exactly when it was set or its waiter fired |
| LockstepClock.Lockstep.WorldTick | Unreal/Plugins/AirSim/Source/Lockstep.cpp:113-135 | the frame time starts at the first call's `now` and advances by `delta`, then the drain to that frame time happens as in `DrainEvents` |
| EventQueue.ScenarioPhysicsAndWaiter | Unreal/Plugins/AirSim/Source/Lockstep.cpp:113-135 | a 3 ms physics event and a 20 ms waiter, registered at 0, drained to 21 ms: ticks at 3 to 18 ms, then the waiter at 20; the 21 ms tick and the 40 ms waiter remain |
| Waiters.Waiter.constructor | AirLib/include/common/Waiter.hpp:73-87 | process and loop start at `now`, not complete. Lockstep: a fresh signal with the worker's turn is inserted one sleep period ahead, and the clock's frame time is left alone. Free-running: no signal |
| Waiters.Waiter.Dispose | AirLib/include/common/Waiter.hpp:90-97 | in lockstep mode the master gets the turn back and the waiter's event is removed, with the clock's frame time left alone; with `RegisterUnregister` and the constructor's contract, the queue returns to what it was |
| Waiters.Waiter.Sleep | AirLib/include/common/Waiter.hpp:100-125 | after completion: error, nothing changes. Timed out: false, nothing changes. Lockstep: returns not-cancelled; the loop start is kept; a command cancelled before the call returns at once without the turn, and otherwise the worker ends with the turn, even when its command was cancelled while it waited. Free-running: returns the token sleep's result; asks it to sleep until one period after the loop start; restarts the loop at wake-up |
| Waiters.Waiter.IsTimeout | AirLib/include/common/Waiter.hpp:138-144 | a complete waiter never reports a timeout |
| Waiters.Waiter.Complete | AirLib/include/common/Waiter.hpp:128-131 | the waiter is complete, and from then on never times out; completing again changes nothing |
| Waiters.TimeoutPersists | AirLib/include/common/Waiter.hpp:138-144 | once timed out, a waiter stays timed out as time goes on |
| Waiters.NoTimeoutBeforeDeadline | AirLib/include/common/Waiter.hpp:138-144 | before `timeout` has passed since the process start, no waiter has timed out |

## Left out

- Mutexes and condition variables: every operation runs atomically and in sequence. A blocking wait
  is its release condition. When the condition does not hold on entry, the peer's notifying write
  that releases it happens inside the call. Only `signalToWorker`/`signalToMaster` notify
  (AirLib/include/common/Waiter.hpp:60-67); cancelling a command notifies nobody. So a worker that
  is waiting is always woken by the master's hand-off. Cancellation only makes its `sleep` return
  false, which is why `signalCanceledWaiter` hands the turn to cancelled workers. For
  `WaitForMaster`, the parameter `cancelledMeanwhile` says whether the command was cancelled before
  that hand-off. Spurious wake-ups of the condition variable are not modelled.
- Concurrency between the drain and a worker: a worker that completes, cancels or unregisters while
  a drain is running is not modelled.
- The world update (`world.lock`, `updateSync`, `unlock`) and the log line of the drain loop are
  external. A fired physics event is only recorded in the returned trace.
- Floating point: the source's `TTimeDelta` is a double in seconds, converted to nanoseconds by
  `addTo`. Here every time and duration is an integer number of nanoseconds. The free-running
  `remaining` is an integer here, where the source has a double.
- `ClockFactory` and `CancelToken::sleep` are abstract. The clock reading is `now`. The token
  sleep's result and its wake-up time are the parameters `slept` and `wake` of `Sleep`.
- The waiter's reads of `isComplete` (`isComplete()`) are reads of the field of that name.
- LockstepClock.Lockstep.DrainEvents: requires every queued period to be positive. With a zero or
  negative period due before the frame time, the source's drain loop never ends.
- LockstepClock.Lockstep.WorldTick: requires every queued period to be positive, for the same
  reason. The source also accepts a zero-period event that is not yet due.
- The frame time is a pair of fields of the clock object. In the source it is a function-local
  static, one per process (Unreal/Plugins/AirSim/Source/Lockstep.cpp:115). The two agree because
  the process has a single clock, `GLockstep` (Unreal/Plugins/AirSim/Source/Lockstep.cpp:17).
- Initialize, RestoreViewMode, the frame handshake (`Lockstep`, `Callback_OnEndFrame`) and the
  `clock_speed` check are engine plumbing and thread ping-pong, outside the queue's logic.
- Lockstep.h is a stale header that does not match Lockstep.cpp and holds no logic. It is not part
  of this model.
- MultirotorRpcLibServer.cpp is not part of this model: its RPC bindings and
  `PostedControlCommandHandler` are network transport and thread-pool plumbing.
