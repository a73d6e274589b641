# ActorFramework in Dafny

A model of the sequential core of ActorFramework, an in-process actor runtime written in C#. Actors are isolated workers. Each one drains a priority mailbox on its own task and talks to other actors only by posting messages. The model covers:

- **The priority mailbox** (`MessagePriorityQueue`) and its write-only handle (`MessageEnqueue`).
  - The mailbox has four FIFO tiers, with 0 the most urgent.
  - The `_waiting` counter records parked consumers.
  - The hand-off queue carries a message straight to a parked consumer.
  - `PriorityDequeue` is split into two atomic steps, its locked section and its wait on the hand-off queue, so enqueues can be interleaved between them. Ghost counters record in-flight dequeues.
- **The actor and its worker loop** (`Actor`, plus the `DoWork` of the runtime's own messages).
  - The worker task is a program counter: not started, looping, waiting for a hand-off, or exited.
  - `WorkerStep` is one atomic step of that task.
  - `RunWorker` runs the `while (_working)` loop until the task exits or blocks on an empty mailbox.
- **The message protocol.**
  - The null-safe `SendMessage`.
  - The ask pattern (`SendMessageAndWaitForResponse`), whose send and wait are two separate steps.
  - `LastAskMessage`.
  - The stop message and `SendStopMsg`.
- **The periodic resender** (`TimeDelaySendMessage`).
  - A per-iteration state machine over the FIFO control queue, the `IsWorking` flag and the 32-bit remaining-copies counter.
  - It sends into a mailbox through a handle.
- **The `Error` value** with its sentinels.

Each class that the C# code updates in place is a Dafny `class`. They are specified in different ways:

- `MessagePriorityQueue` has a `Valid()` that ties its fields to the mailbox invariant, and a ghost `State()` that abstracts them to a `MailboxState` value. Each of its methods is proved against a pure step function over that value: `EnqueueStep`, `LockedDequeueStep`, `WaitStep` or `FlushStep`.
- `TimeDelaySendMessage` has a ghost `State()`, a `ResenderState` value, and its methods are proved against `Launched`, `Iterate` and `Ticks`. Its fields need no invariant beyond their types, so it has no `Valid()`.
- `Actor` has a `Valid()` that ties the worker's program counter to `_working` and to its own mailbox, and no `State()` of its own. One loop body is proved against the two-state predicate `RanIteration`, and the whole loop against the predicate `RanPrefix`, both stated over the mailbox's `State()`.
- `ReplyMessage` and `MessageEnqueue` have one field each, and their contracts speak of that field directly.

The lemmas state what the source promises about those functions. Priority order with FIFO within a tier is one. Exactly one message per enqueue is another. So are the mailbox invariant, the timeout round trip, flush idempotence, and the resender's option order and copy count.

Files:

- `wrappers.dfy`: `Option`.
- `errors.dfy`: `Error`.
- `messages.dfy`: messages and the reply object.
- `mailbox.dfy`: the mailbox.
- `sending.dfy`: sending and the ask pattern.
- `actor.dfy`: the actor.
- `resender.dfy`: the resender.
- `scenarios.dfy`: end-to-end runs that allocate their own objects.

### How the model reads the code

- Timeouts are arguments. Whether a finite timeout has run out is the `expired` flag. A timeout of 0 always has; -1 never does.
  - A timeout below -1 makes `BlockingCollection.TryTake` throw before it looks at the queue. The model keeps this as a separate outcome with no item.
  - In `PriorityDequeue` that exception leaves `_waiting` incremented. The ghost `leaked` counter records this, and the mailbox invariant accounts for it.
- `PriorityEnqueue(msg, int)` with a tier index outside 0..3 throws only when nobody is parked. With a consumer parked, the message is handed off whatever the index. `EnqueueStep` returns `None` exactly in the throwing case.
- Running an ask whose reply queue was never installed dereferences null. The exception escapes the loop body, ends the worker task, and the continuation still runs `PreStop`.
- With the worker not yet parked, after M1 at Normal, M2 at High and an urgent stop, tier 0 is scanned first, so the stop runs and M2, M1 stay in the mailbox in that order (see `Scenarios.StopPreemptsBacklog`).
- The reply type `T` is `int`, so `default(T)` is 0. `DoCore` is the request's constant `answer`.
- `_CallerQueue` is a fresh private mailbox (ActorFramework/Actor.cs:13). Nothing else assigns it and nothing drains it; `ReadCallerQueue` is its only reader. So it belongs to no caller, and what is sent through its handle is never run. The model keeps it as a fresh mailbox of its own.
- User messages are opaque. Each carries an identity and the `Error` its `DoWork` returns.
- `SendMessage` also enqueues a null message. It is the `Null` message: the worker dequeues it, `?.DoWork` yields a null `Error`, the handler reports nothing, and the loop goes on.

## Model

| member | source | states |
|---|---|---|
| Errors.Default | ActorFramework/Error.cs:15 | `new Error()` is a success with code 0 and an empty text |
| Errors.Failure | ActorFramework/Error.cs:17-22 | the two-argument constructor is a failure carrying exactly the given code and text |
| Errors.CatchError | ActorFramework/Error.cs:40-43 | a failure with code -2 and the given text |
| Errors.NoError | ActorFramework/Error.cs:45 | the success sentinel: not a failure, equal to the default value |
| Errors.InvalidMessage | ActorFramework/Error.cs:46 | a failure with code -1 and the unsupported-message text |
| Errors.FailureRoundTrip | ActorFramework/Error.cs:17-22 | every failure is rebuilt exactly from its code and text by the two-argument constructor |
| Errors.SentinelsDistinct | ActorFramework/Error.cs:40-46 | `NoError`, `InvalidMessage` and any `CatchError` are pairwise distinct |
| Messages.ReplyMessage.DoWork | ActorFramework/Messages/Message.cs:45-49 | with a reply queue installed, appends exactly `DoCore`'s result and reports `NoError`; without one, the call throws and nothing changes |
| Messages.LastAskDoWork | ActorFramework/Messages/Message.cs:76-82 | the terminal marker's work is a success, equal to `NoError` |
| Mailbox.Tier | ActorFramework/MessagePriorityQueue.cs:5-10 | High lands in tier 1, Normal in 2, Low in 3; every priority indexes one of the four tiers and none is tier 0 |
| Mailbox.TierInjective | ActorFramework/MessagePriorityQueue.cs:5-10 | distinct priorities use distinct tiers, and no priority uses the critical tier 0 |
| Mailbox.EmptyMailbox | ActorFramework/MessagePriorityQueue.cs:22-49 | a new mailbox satisfies the invariant, has nobody waiting and holds nothing |
| Mailbox.EnqueueStep | ActorFramework/MessagePriorityQueue.cs:61-81 | with nobody waiting: appends to the back of the given tier only, leaves hand-off and `_waiting` unchanged, and throws exactly for an index outside 0..3; with someone waiting: leaves all tiers unchanged, appends to the hand-off queue and decrements `_waiting`; the invariant is kept |
| Mailbox.EnqueueAt | ActorFramework/MessagePriorityQueue.cs:87-90 | the `MessagePriority` overload is the `int` overload at `(int)priority`, and it never throws for the three named priorities |
| Mailbox.FirstNonEmpty | ActorFramework/MessagePriorityQueue.cs:109-117 | the scan finds the lowest-index non-empty tier: all tiers before it are empty, and it is non-empty when it is below the tier count; it is the tier count exactly when every tier is empty |
| Mailbox.LockedDequeueStep | ActorFramework/MessagePriorityQueue.cs:105-121 | takes a message exactly when nobody waits and some tier is non-empty; what it takes is the front of the most urgent non-empty tier, and only that tier changes; otherwise the tiers are untouched and `_waiting` rises by one |
| Mailbox.WaitStep | ActorFramework/MessagePriorityQueue.cs:138-149 | a timeout below -1 is rejected and keeps the `_waiting` increment; otherwise the hand-off head is delivered in arrival order; an expired finite timeout gives back the `_waiting` slot and returns nothing; timeout -1 blocks with nothing changed |
| Mailbox.FlushStep | ActorFramework/MessagePriorityQueue.cs:156-168 | returns the buffered messages tier 0 first and FIFO within each tier, and leaves all four tiers empty with the hand-off queue and `_waiting` unchanged |
| Mailbox.BufferedEnqueue | ActorFramework/MessagePriorityQueue.cs:67-71 | with nobody waiting, an enqueue is exactly one append to the given tier |
| Mailbox.EnqueueAddsExactlyOne | ActorFramework/MessagePriorityQueue.cs:61-81 | a successful enqueue adds exactly that message, once, to what the mailbox holds |
| Mailbox.LockedDequeueTakesFlushHead | ActorFramework/MessagePriorityQueue.cs:109-117 | the message taken is the first message of the flush order, and the rest of that order is unchanged |
| Mailbox.LoneConsumerTakesBacklogHead | ActorFramework/MessagePriorityQueue.cs:105-117 | with no other dequeue in flight, the locked section hands out the head of the whole delivery order |
| Mailbox.HandoffDeliversBacklogHead | ActorFramework/MessagePriorityQueue.cs:139-144 | a hand-off delivers the head of the delivery order, and the rest keeps its order |
| Mailbox.LockedDequeueParksIffNothingToTake | ActorFramework/MessagePriorityQueue.cs:105-121 | the caller parks if and only if someone already waits or no message is buffered |
| Mailbox.DrainedIsFlushOrder | ActorFramework/MessagePriorityQueue.cs:105-117 | dequeuing until the mailbox would park yields exactly the flush order: priority order between tiers, FIFO within one |
| Mailbox.ParkedConsumersSeeEmptyTiers | ActorFramework/MessagePriorityQueue.cs:65-121 | between atomic steps, any parked consumer that no hand-off will serve sees every tier empty |
| Mailbox.TimeoutRestoresState | ActorFramework/MessagePriorityQueue.cs:105-149 | a dequeue that parks and then times out returns nothing and leaves the mailbox, `_waiting` included, exactly as it was before the call |
| Mailbox.FlushIdempotent | ActorFramework/MessagePriorityQueue.cs:156-168 | a second flush returns nothing and changes nothing |
| Mailbox.MessagePriorityQueue.constructor | ActorFramework/MessagePriorityQueue.cs:43-54 | a new mailbox has four empty tiers, no hand-off and `_waiting` 0 |
| Mailbox.MessagePriorityQueue.PriorityEnqueue | ActorFramework/MessagePriorityQueue.cs:61-81 | the new state is `EnqueueStep` of the old one, and nothing changes when the index throws |
| Mailbox.MessagePriorityQueue.PriorityEnqueueAt | ActorFramework/MessagePriorityQueue.cs:87-90 | the new state is `EnqueueAt` of the old one |
| Mailbox.MessagePriorityQueue.BeginDequeue | ActorFramework/MessagePriorityQueue.cs:105-121 | the scan over the tier array computes `LockedDequeueStep` in place |
| Mailbox.MessagePriorityQueue.FinishDequeue | ActorFramework/MessagePriorityQueue.cs:138-149 | the wait computes `WaitStep` in place, including the rejected timeout |
| Mailbox.MessagePriorityQueue.Flush | ActorFramework/MessagePriorityQueue.cs:156-168 | the nested drain loop returns and leaves exactly what `FlushStep` says |
| Mailbox.MessagePriorityQueue.ReleasePriorityQueue | ActorFramework/MessagePriorityQueue.cs:174-177 | the same as `Flush` |
| Mailbox.MessageEnqueue.constructor | ActorFramework/MessagePriorityQueue.cs:196-199 | the handle wraps exactly the given mailbox |
| Mailbox.MessageEnqueue.Enqueue | ActorFramework/MessagePriorityQueue.cs:206-209 | an enqueue at the given priority, Normal by default |
| Mailbox.MessageEnqueue.EnqueueCritical | ActorFramework/MessagePriorityQueue.cs:215-219 | an enqueue at tier 0 |
| Sending.SendMessage | ActorFramework/Messages/Message.cs:21-24 | a null handle changes nothing; otherwise exactly one enqueue at the given priority, Normal by default |
| Sending.SendRequest | ActorFramework/Messages/Message.cs:59-63 | installs a fresh, empty reply queue on the request before enqueueing it once |
| Sending.WaitForResponse | ActorFramework/Messages/Message.cs:64-67 | a timeout below -1 throws; otherwise it returns the first reply if one arrived, and `default(T)` once a finite timeout has passed; it keeps waiting exactly when no reply has arrived and the timeout is -1 or not yet over |
| Sending.StopPosted | ActorFramework/Messages/StopActor.cs:19-29 | an urgent stop is an enqueue at tier 0; otherwise it is an enqueue at Normal |
| Sending.StopPostedAddsOneStop | ActorFramework/Messages/StopActor.cs:19-29 | either way, exactly one `Stop` is added and nothing else |
| Sending.SendStopMsg | ActorFramework/Messages/StopActor.cs:19-29 | the mailbox becomes `StopPosted` of its old state |
| Actors.Reported | ActorFramework/Actor.cs:102-108 | the handler reports a result if and only if it is non-null and a failure, and then reports exactly it |
| Actors.HandlerOnSentinels | ActorFramework/Actor.cs:102-108 | null and `NoError` are never reported; `InvalidMessage` and `CatchError` always are |
| Actors.Actor.constructor | ActorFramework/Actor.cs:13-23 | two distinct empty mailboxes, the worker not started, `_working` false |
| Actors.Actor.ReadSelfEnqueue | ActorFramework/Actor.cs:76-79 | a new handle on the actor's own mailbox |
| Actors.Actor.ReadCallerQueue | ActorFramework/Actor.cs:93-96 | a new handle on the actor's private `_CallerQueue` mailbox, never the actor's own |
| Actors.Actor.LaunchActor | ActorFramework/Actor.cs:65-70 | `PreStart` runs once, `_working` is set, the loop starts, and the handle reaches the actor's own mailbox |
| Actors.Actor.FlushSelfEnqueue | ActorFramework/Actor.cs:84-87 | the actor's own mailbox becomes `FlushStep` of its old state, with all tiers empty |
| Actors.Actor.ErrorHandler | ActorFramework/Actor.cs:102-108 | the log grows by exactly `Reported(err)` |
| Actors.Actor.StopActor | ActorFramework/Actor.cs:113-117 | clears `_working` and returns `NoError` |
| Actors.Actor.DoWork | ActorFramework/Messages/StopActor.cs:14-17 | stop clears `_working` and returns `NoError`; user messages return their result; the marker returns success; an ask deposits its answer or throws; a null message skips the call and yields no result |
| Actors.Actor.RunIteration | ActorFramework/Actor.cs:51-58 | one loop body: the message runs and goes to the handler; the loop goes on unless `_working` is now false or the body threw; a null message reports nothing and the loop goes on; `PreStop` runs once on exit; no other ask's reply queue changes |
| Actors.Actor.DequeueStep | ActorFramework/Actor.cs:53 | the locked section of the dequeue, then the message it took is run; with nothing taken the worker waits for a hand-off; every other ask keeps its reply queue |
| Actors.Actor.HandoffStep | ActorFramework/Actor.cs:53 | the infinite wait ends only by a hand-off, whose message is then run; every other ask keeps its reply queue |
| Actors.Actor.WorkerStep | ActorFramework/Actor.cs:51-54 | from `Looping` the mailbox becomes `LockedDequeueStep` of its old state and a message is taken exactly when that step takes one; from a hand-off wait it becomes `WaitStep` with the infinite timeout; any message taken is the head of the delivery order and is run once; a stop ends the loop; the loop ends only on a stop or a throwing ask; every ask not run keeps its reply queue |
| Actors.Actor.WorkerTurn | ActorFramework/Actor.cs:51-54 | one turn keeps the loop's progress invariant and lowers its measure, and every ask it did not run keeps its reply queue |
| Actors.Actor.RunWorker | ActorFramework/Actor.cs:49-58 | the loop runs a prefix of the delivery order, one message at a time, and the rest stays; it stops at the first stop at the latest, and an exit on anything other than a stop is on an ask; otherwise it has run everything, no stop among it, and waits on an empty mailbox; every ask the loop did not run keeps its reply queue |
| Actors.AdvancedToTheEnd | ActorFramework/Actor.cs:51-54 | when the loop guard fails, the progress invariant gives the loop's outcome, `RanPrefix` |
| Resender.Decrement | ActorFramework/TimeDelaySendMessage.cs:93 | `_residueCopies--` on a C# `int`: one less, and the least value wraps to the greatest |
| Resender.EndIteration | ActorFramework/TimeDelaySendMessage.cs:64-93 | every completed iteration decrements the count once, then tests the loop condition |
| Resender.Iterate | ActorFramework/TimeDelaySendMessage.cs:64-94 | a wait below -1 faults the task; a queued option is taken first, sends exactly for the two send options, and clears `IsWorking` exactly for the two stop options; with no option, a timeout sends one copy; a wait not yet over changes nothing |
| Resender.ContinuesCases | ActorFramework/TimeDelaySendMessage.cs:64 | as written, a working loop always goes round again, and a stopped one only with the count exactly 0; with the correction, a stopped loop ends and a working one ends exactly when the count reaches 0 |
| Resender.Launched | ActorFramework/TimeDelaySendMessage.cs:60-64 | `IsWorking` set and the count loaded from `Copies` before the first iteration, and the source's loop condition holds there, so the first iteration runs |
| Resender.Idle | ActorFramework/TimeDelaySendMessage.cs:39-47 | a new resender is not working and has no options queued |
| Resender.Ticks | ActorFramework/TimeDelaySendMessage.cs:62-95 | a run sends at most one copy per tick, and once the task has left the loop it does nothing |
| Resender.TimeoutsNeverExhaustAsWritten | ActorFramework/TimeDelaySendMessage.cs:64-93 | with the condition as written, a working resender sends one copy per timeout and keeps running, whatever the count |
| Resender.AsWrittenOutlivesCopies | ActorFramework/TimeDelaySendMessage.cs:64 | with three copies requested, four timeouts send four copies and the loop still runs |
| Resender.IntendedSendsExactlyCopies | ActorFramework/TimeDelaySendMessage.cs:64 | with the corrected condition, a positive count sends exactly that many copies and then ends the loop |
| Resender.IntendedZeroCopiesRunsUntilStopped | ActorFramework/TimeDelaySendMessage.cs:64 | with the corrected condition, a working loop whose count is 0 or below sends on every timeout until stopped |
| Resender.IntendedZeroCopiesFromLaunch | ActorFramework/TimeDelaySendMessage.cs:60-64 | with the corrected condition, a resender launched with `Copies = 0` sends one copy per timeout and keeps running until stopped |
| Resender.StopOptionEndsLoop | ActorFramework/TimeDelaySendMessage.cs:76-82 | a stop option clears `IsWorking`; as written it ends the loop if and only if the decremented count is not 0; with the corrected condition it always does |
| Resender.OptionsTakenInArrivalOrder | ActorFramework/TimeDelaySendMessage.cs:66-86 | the option used is the oldest queued, whatever is queued after it, and what is left keeps its order |
| Resender.TicksLeaveSuffixOfOptions | ActorFramework/TimeDelaySendMessage.cs:64-94 | over any run, the options left are a suffix of those queued at the start |
| Resender.SentCopies | ActorFramework/TimeDelaySendMessage.cs:88-91 | sending copies keeps the target mailbox's invariant and its consumers |
| Resender.SentCopiesAddsCopies | ActorFramework/TimeDelaySendMessage.cs:88-91 | `n` sends add exactly `n` copies of the message to the target mailbox |
| Resender.TimeDelaySendMessage.constructor | ActorFramework/TimeDelaySendMessage.cs:39-47 | stores target, message, priority, `Copies` and `MillisecondToWait`; the defaults are -1 ms, 0 copies and Normal |
| Resender.TimeDelaySendMessage.LaunchActor | ActorFramework/TimeDelaySendMessage.cs:58-61 | the state becomes `Launched` with `Copies` |
| Resender.TimeDelaySendMessage.Control | ActorFramework/TimeDelaySendMessage.cs:98-101 | appends the option to the back of the control queue |
| Resender.TimeDelaySendMessage.Decide | ActorFramework/TimeDelaySendMessage.cs:66-93 | an iteration's field updates and its send decision are exactly `Iterate` with the condition as written |
| Resender.TimeDelaySendMessage.Tick | ActorFramework/TimeDelaySendMessage.cs:64-94 | one iteration is `Iterate` as written, and the target mailbox gets one enqueue exactly when it sends |
| Resender.TimeDelaySendMessage.Run | ActorFramework/TimeDelaySendMessage.cs:62-95 | the loop over a series of ticks is `Ticks` as written, and the target mailbox receives exactly that many copies |
| Scenarios.StopJumpsTheQueue | ActorFramework/MessagePriorityQueue.cs:109-117 | after M1 at Normal, M2 at High and an urgent stop, the delivery order is stop, M2, M1 |
| Scenarios.LaunchWithStopQueued | ActorFramework/Actor.cs:65-70 | a launched actor whose mailbox then holds stop, M2, M1 in that delivery order |
| Scenarios.StopPreemptsBacklog | ActorFramework/Actor.cs:51-54 | the worker exits, and M2 and M1 are left in the mailbox in that order: the stop ran first and alone |
| Scenarios.AskRoundTrip | ActorFramework/Messages/Message.cs:59-67 | an ask to a parked receiver that runs it returns exactly the receiver's answer |
| Scenarios.LaunchWithTwoAsks | ActorFramework/Messages/Message.cs:59-63 | a launched actor with two asks queued at Normal, each with an empty reply queue, the first at the head |
| Scenarios.FirstAskLeavesSecondWaiting | ActorFramework/Messages/Message.cs:45-49 | with two asks buffered, one worker step answers the first caller exactly, and the second caller's reply queue stays empty, so it goes on waiting |
| Scenarios.AskTimesOut | ActorFramework/Messages/Message.cs:64-67 | an ask nobody runs returns `default(T)` once a finite timeout has passed |
| Scenarios.ResenderIgnoresCopies | ActorFramework/TimeDelaySendMessage.cs:64 | with a zero wait, more ticks than copies send one copy per tick into the target mailbox, and the loop still runs |

## Left out

- Threads and tasks (`Task.Factory.StartNew`, `ContinueWith`). Each loop is a sequence of atomic steps, and an interleaving is a choice of step order.
- The lost-wakeup race: `_waiting` is decremented outside the lock after a timeout. The timeout tail is one atomic step here.
- Real blocking, and the clock: timeouts are the `expired` flag.
- The finalizer `~Actor`: it runs at times fixed by the garbage collector.
- Console output: `PreStop`'s message, the handler's log line and the dequeue's timeout line. `ErrorHandler` is modelled as a log of the errors it reports.
- `Error.Handle`: console output only.
- `FrameRateCalculator.cs`: it uses the wall clock and floating point, and has nothing to do with the mailbox.
- `BeginInvokeEventHandler.cs`: a thin `Task.Run` wrapper.
- The `Name` properties, and `_waitPriorQueue`, which is never used.
- User message bodies and overridden hooks. A user message's `DoWork` returns a fixed `Error` and never throws. `PreStart` and `PreStop` are counted, not run.
- `ReplyMessage<T>` for `T` other than `int`, and `DoCore` beyond a constant answer.
- Calling `Actor.LaunchActor` a second time: the model requires a worker that was not started, and the C# code would start a second loop on the same mailbox.
- Writes to the public `IsWorking`, `Copies` and `MillisecondToWait` properties from outside while the resender runs. `Control` is the modelled way to steer a running resender.
- `Flush` takes no lock. The model treats it as atomic.
- `Error` objects are mutable and the sentinels are shared instances. Here they are values, so nothing can alter `NoError` through a reference.
- Actors.Actor.RunWorker: the summary over the whole loop says that the asks it did not run keep their reply queues. It does not say that every ask it ran before the last had one installed, or that an exit on an ask is on one without, because that would need the reply queues as they were when each ask ran. Each step's exact exit condition, reply queue included, is in `Actors.Actor.WorkerStep` through `RanIteration`.
- Resender.TimeDelaySendMessage.LaunchActor: a relaunch while the loop runs is not modelled, because the model has one loop per resender. The C# code accepts it: it resets `IsWorking` and `_residueCopies` and starts a second loop task on the same fields and control queue.
- Sending.SendStopMsg: a null handle is not modelled. The C# code then throws `NullReferenceException` at `EnqueueCritical` or `Enqueue`; its one call site, the finalizer, passes a non-null handle.
- Mailbox.EnqueueAt: only the three named priorities are modelled. A C# enum may hold any `int`, and `(MessagePriority)7` reaches the throwing `int` overload. Likewise an unnamed `TimeDelayOptions` value would fall into `default: break`, which the model cannot express.
- Actors.Actor.HandoffStep: the actor always dequeues with the infinite timeout, so this step never times out. The finite and rejected timeouts are modelled in `Mailbox.MessagePriorityQueue.FinishDequeue`.

## Findings

| source | as written | input that shows it | evidently intended | confidence | as-written member | corrected member |
|---|---|---|---|---|---|---|
| ActorFramework/TimeDelaySendMessage.cs:64 | the resender loop continues while `IsWorking \|\| _residueCopies == 0`, so a working resender never stops on its count | `Copies = 3`, `MillisecondToWait = 0`, four timeouts: four copies are sent and the loop is still running | the loop is `do { … } while (IsWorking && _residueCopies != 0)`: the first iteration always runs, a positive count sends exactly that many copies, and 0 means until stopped | not executed | Resender.AsWrittenOutlivesCopies | Resender.IntendedSendsExactlyCopies |

`Resender.TimeDelaySendMessage` follows the code as written. The corrected condition is `Continues(Intended, …)`, tested after each iteration like a `do { … } while`: `Launched` enters the first iteration under either condition (the source's condition holds at launch, so this is its `while` too). The option-order and stop lemmas hold for both conditions.
