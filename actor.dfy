/**
 * The actor and its worker loop (ActorFramework/Actor.cs, and the `DoWork` of the
 * runtime's own messages from ActorFramework/Messages/).
 *
 * The worker task is modelled by an explicit program counter. `Looping` means the loop
 * guard has just held and the next action is a dequeue; `AwaitingHandoff` means the dequeue has
 * left its locked section and waits on the hand-off queue (the actor always dequeues
 * with the infinite timeout). `WorkerStep` is one atomic step of the task; `RunWorker`
 * runs steps until the task exits or blocks on an empty mailbox.
 */
module Actors {
  import opened Wrappers
  import opened Errors
  import opened Messages
  import opened Mailbox

  datatype WorkerPc = NotStarted | Looping | AwaitingHandoff | Exited

  /** What the default `ErrorHandler` logs for a result: nothing unless it is a non-null failure. */
  function Reported(err: Option<Error>): (log: seq<Error>)
    ensures log != [] <==> err.Some? && err.value.isError
    ensures log != [] ==> log == [err.value]
  {
    if err.Some? && err.value.isError then [err.value] else []
  }

  /** Success and a timed-out dequeue are never logged; the failure sentinels always are. */
  lemma HandlerOnSentinels(m: string)
    ensures Reported(None) == [] && Reported(Some(NoError())) == []
    ensures Reported(Some(InvalidMessage())) == [InvalidMessage()]
    ensures Reported(Some(CatchError(m))) == [CatchError(m)]
  {
  }

  class Actor {
    /** `_CallerQueue`: a private mailbox of its own, which nothing assigns or drains. */
    const callerQueue: MessagePriorityQueue
    /** The actor's own mailbox (`_selfQueue`). */
    const selfQueue: MessagePriorityQueue
    /** The loop guard (`_working`). */
    var working: bool
    /** Where the worker task is. */
    var worker: WorkerPc
    /** How often the `PreStart` and `PreStop` hooks have run. */
    var preStartCalls: nat
    var preStopCalls: nat
    /** The errors `ErrorHandler` has written to the log. */
    var reported: seq<Error>
    /** The messages the worker has run, in order. */
    ghost var executed: seq<Message>

    ghost predicate Valid()
      reads this, selfQueue, selfQueue.buffers, callerQueue, callerQueue.buffers
    {
      && selfQueue != callerQueue && selfQueue.buffers != callerQueue.buffers
      && selfQueue.Valid() && callerQueue.Valid()
      // the worker is the only consumer of its own mailbox
      && selfQueue.parked == (if worker == AwaitingHandoff then 1 else 0) && selfQueue.leaked == 0
      && (worker == Looping || worker == AwaitingHandoff ==> working)
      && (worker == NotStarted ==> !working && executed == [])
      && preStartCalls == (if worker == NotStarted then 0 else 1)
      && preStopCalls == (if worker == Exited then 1 else 0)
    }

    constructor ()
      ensures Valid()
      ensures fresh(selfQueue) && fresh(selfQueue.buffers) && fresh(callerQueue) && fresh(callerQueue.buffers)
      ensures selfQueue.State() == EmptyMailbox() && callerQueue.State() == EmptyMailbox()
      ensures worker == NotStarted && !working && reported == []
    {
      callerQueue := new MessagePriorityQueue();
      selfQueue := new MessagePriorityQueue();
      working := false;
      worker := NotStarted;
      preStartCalls, preStopCalls := 0, 0;
      reported := [];
      executed := [];
    }

    /** `ReadSelfEnqueue`: a new handle on the actor's own mailbox. */
    method ReadSelfEnqueue() returns (h: MessageEnqueue)
      ensures fresh(h) && h.queue == selfQueue
    {
      h := new MessageEnqueue(selfQueue);
    }

    /** `ReadCallerQueue`: a new handle on the `_CallerQueue` mailbox, never on the actor's own. */
    method ReadCallerQueue() returns (h: MessageEnqueue)
      requires Valid()
      ensures fresh(h) && h.queue == callerQueue && h.queue != selfQueue
    {
      h := new MessageEnqueue(callerQueue);
    }

    /** `LaunchActor`: `PreStart`, then `ActorCore` sets `_working` and starts the loop. */
    method LaunchActor() returns (h: MessageEnqueue)
      requires Valid() && worker == NotStarted
      modifies this
      ensures Valid()
      ensures working && worker == Looping && preStartCalls == 1 && preStopCalls == 0
      ensures reported == old(reported) && executed == old(executed)
      ensures fresh(h) && h.queue == selfQueue
    {
      preStartCalls := preStartCalls + 1;   // PreStart()
      working := true;                      // ActorCore()
      worker := Looping;
      h := ReadSelfEnqueue();
    }

    /** `FlushSelfEnqueue`: empties every tier of the actor's own mailbox. */
    method FlushSelfEnqueue()
      requires Valid()
      modifies selfQueue.buffers
      ensures Valid()
      ensures selfQueue.State() == FlushStep(old(selfQueue.State())).1
    {
      var removed := selfQueue.Flush();
    }

    /** `ErrorHandler`: logs a non-null failure, ignores everything else. */
    method ErrorHandler(err: Option<Error>)
      modifies this`reported
      ensures reported == old(reported) + Reported(err)
    {
      if err.Some? && err.value.isError {
        reported := reported + [err.value];
      }
    }

    /** `StopActor`: clears the loop guard. */
    method StopActor() returns (e: Error)
      modifies this`working
      ensures !working && e == NoError()
    {
      working := false;
      e := NoError();
    }

    /**
     * `m.DoWork(this)`: user messages return their own result; `Stop` runs `StopActor`;
     * `LastAsk` does nothing; an ask deposits its answer (or throws without a reply queue);
     * on a null message `?.` skips the call.
     */
    method DoWork(m: Message) returns (o: Outcome)
      modifies this`working, RequestOf(m)
      ensures m.Plain? ==> o == Returned(m.result) && working == old(working)
      ensures m.Stop? ==> o == Returned(NoError()) && !working
      ensures m.LastAsk? ==> o == Returned(LastAskDoWork()) && working == old(working)
      ensures m.Ask? ==> working == old(working)
      ensures m.Null? ==> o == NoResult && working == old(working)
      ensures m.Ask? && old(m.request.replyQueue).None? ==> o == Threw && m.request.replyQueue == None
      ensures m.Ask? && old(m.request.replyQueue).Some? ==>
        o == Returned(NoError()) && m.request.replyQueue == Some(old(m.request.replyQueue).value + [m.request.answer])
    {
      match m
      case Plain(_, result) =>
        o := Returned(result);
      case Stop =>
        var e := StopActor();
        o := Returned(e);
      case LastAsk =>
        o := Returned(LastAskDoWork());
      case Ask(request) =>
        o := request.DoWork();
      case Null =>
        o := NoResult;
    }

    /**
     * The effect of one loop iteration on message `m`: it is run, its result goes through
     * `ErrorHandler`, and the loop continues unless the guard is now false or the body
     * threw; on exit `PreStop` runs once.
     */
    twostate predicate RanIteration(new m: Message)
      reads this, RequestOf(m)
    {
      && old(allocated(m))
      && executed == old(executed) + [m]
      && preStartCalls == old(preStartCalls)
      && (m.Plain? ==> working == old(working) && reported == old(reported) + Reported(Some(m.result)))
      && (m.Stop? ==> !working && reported == old(reported))
      && (m.LastAsk? ==> working == old(working) && reported == old(reported))
      && (m.Null? ==> working == old(working) && reported == old(reported))
      && (m.Ask? ==>
            && working == old(working) && reported == old(reported)
            && (old(m.request.replyQueue).None? ==> m.request.replyQueue == None)
            && (old(m.request.replyQueue).Some? ==>
                  m.request.replyQueue == Some(old(m.request.replyQueue).value + [m.request.answer])))
      && var ended := !working || (m.Ask? && old(m.request.replyQueue).None?);
         && worker == (if ended then Exited else Looping)
         && preStopCalls == old(preStopCalls) + (if ended then 1 else 0)
    }

    method RunIteration(m: Message)
      modifies this, RequestOf(m)
      ensures RanIteration(m)
      ensures forall r: ReplyMessage :: old(allocated(r)) && m != Ask(r) ==> r.replyQueue == old(r.replyQueue)
    {
      var o := DoWork(m);
      executed := executed + [m];
      if o.Returned? || o.NoResult? {
        ErrorHandler(if o.Returned? then Some(o.err) else None);
        worker := if working then Looping else Exited;
      } else {
        // the exception ends the task; its continuation still runs PreStop
        worker := Exited;
      }
      if worker == Exited {
        preStopCalls := preStopCalls + 1;    // PreStop()
      }
    }

    /** The step from `Looping`: the locked section of the dequeue, then the message if there is one. */
    method DequeueStep() returns (taken: Option<Message>)
      requires Valid() && worker == Looping
      modifies this, selfQueue, selfQueue.buffers, selfQueue.Requests()
      ensures Valid()
      ensures var (t, s) := LockedDequeueStep(old(selfQueue.State()));
        && selfQueue.State() == s
        && (taken.Some? <==> t.Got?)
        && (taken.Some? ==> taken.value == t.msg && RanIteration(taken.value))
        && (taken.None? ==>
              worker == AwaitingHandoff && executed == old(executed)
              && reported == old(reported) && working == old(working))
      // every request except the one just run keeps its reply queue
      ensures forall r: ReplyMessage :: old(allocated(r)) && taken != Some(Ask(r)) ==> r.replyQueue == old(r.replyQueue)
    {
      var t := selfQueue.BeginDequeue();
      // the locked section changes only the mailbox
      assert forall r: ReplyMessage :: old(allocated(r)) ==> r.replyQueue == old(r.replyQueue);
      if t.Got? {
        ghost var before := old(selfQueue.State());
        LoneConsumerTakesBacklogHead(before);
        RequestsInTail(Backlog(before));
        taken := Some(t.msg);
        RunIteration(t.msg);
      } else {
        taken := None;
        worker := AwaitingHandoff;
      }
    }

    /** The step from `AwaitingHandoff`: the wait on the hand-off queue, with the infinite timeout. */
    method HandoffStep() returns (taken: Option<Message>)
      requires Valid() && worker == AwaitingHandoff
      modifies this, selfQueue, selfQueue.Requests()
      ensures Valid()
      ensures var (w, s) := WaitStep(old(selfQueue.State()), -1, false);
        && selfQueue.State() == s
        && (taken.Some? <==> w.Delivered?)
        && (taken.Some? ==> taken.value == w.msg && RanIteration(taken.value))
        && (taken.None? ==>
              worker == AwaitingHandoff && executed == old(executed)
              && reported == old(reported) && working == old(working))
      // every request except the one just run keeps its reply queue
      ensures forall r: ReplyMessage :: old(allocated(r)) && taken != Some(Ask(r)) ==> r.replyQueue == old(r.replyQueue)
    {
      var w := selfQueue.FinishDequeue(-1, false);
      // the wait changes only the mailbox
      assert forall r: ReplyMessage :: old(allocated(r)) ==> r.replyQueue == old(r.replyQueue);
      // with the infinite timeout the wait never times out
      assert w.Delivered? || w.Blocked?;
      if w.Delivered? {
        ghost var before := old(selfQueue.State());
        HandoffDeliversBacklogHead(before, -1, false);
        RequestsInTail(Backlog(before));
        taken := Some(w.msg);
        RunIteration(w.msg);
      } else {
        taken := None;
      }
    }

    /**
     * One atomic step of the worker task. Any message it gets is the head of the
     * mailbox's delivery order, and is run at once.
     */
    method WorkerStep() returns (taken: Option<Message>)
      requires Valid()
      modifies this, selfQueue, selfQueue.buffers, selfQueue.Requests()
      ensures Valid()
      ensures old(worker) == NotStarted || old(worker) == Exited ==>
        taken.None? && worker == old(worker) && executed == old(executed) && selfQueue.State() == old(selfQueue.State())
      ensures old(worker) == Looping ==> var (t, s) := LockedDequeueStep(old(selfQueue.State()));
        selfQueue.State() == s && (taken.Some? <==> t.Got?)
      ensures old(worker) == AwaitingHandoff ==> var (w, s) := WaitStep(old(selfQueue.State()), -1, false);
        selfQueue.State() == s && (taken.Some? <==> w.Delivered?)
      ensures old(worker) == Looping && taken.None? ==> worker == AwaitingHandoff
      ensures old(worker) == AwaitingHandoff ==> (taken.Some? <==> old(selfQueue.waitMsgQueue) != [])
      ensures old(worker) == AwaitingHandoff && taken.None? ==> worker == AwaitingHandoff
      ensures taken.None? ==>
        && executed == old(executed) && reported == old(reported) && working == old(working)
        && Backlog(selfQueue.State()) == Backlog(old(selfQueue.State()))
      ensures taken.Some? ==>
        && Backlog(old(selfQueue.State())) != []
        && taken.value == Backlog(old(selfQueue.State()))[0]
        && Backlog(selfQueue.State()) == Backlog(old(selfQueue.State()))[1..]
        && RanIteration(taken.value)
      ensures taken.Some? ==> executed == old(executed) + [taken.value]
      ensures taken.Some? && taken.value == Stop ==> worker == Exited
      ensures old(worker) != Exited && worker == Exited ==> taken.Some? && (taken.value == Stop || taken.value.Ask?)
      ensures old(worker) != NotStarted ==> worker != NotStarted
      ensures selfQueue.Requests() <= old(selfQueue.Requests())
      // every request except the one just run keeps its reply queue
      ensures forall r: ReplyMessage :: old(allocated(r)) && taken != Some(Ask(r)) ==> r.replyQueue == old(r.replyQueue)
    {
      ghost var before := selfQueue.State();
      if worker == Looping {
        taken := DequeueStep();
        if taken.Some? {
          LoneConsumerTakesBacklogHead(before);
          RequestsInTail(Backlog(before));
        }
      } else if worker == AwaitingHandoff {
        taken := HandoffStep();
        if taken.Some? {
          HandoffDeliversBacklogHead(before, -1, false);
          RequestsInTail(Backlog(before));
        }
      } else {
        taken := None;
      }
    }

    /** What the worker loop has done so far: `k` messages of `backlog`, with the stop rule. */
    ghost predicate Progress(startedAs: WorkerPc, initial: MailboxState, done: seq<Message>,
                             backlog: seq<Message>, k: nat, requests: set<object>)
      reads this, selfQueue, selfQueue.buffers
    {
      Advanced(startedAs, initial, done, backlog, k, requests, worker, executed, selfQueue.State())
    }

    /** The loop's measure: each message taken lowers it, and so does parking. */
    ghost function Pending(): nat
      reads this, selfQueue, selfQueue.buffers
    {
      2 * |Backlog(selfQueue.State())| + (if worker == Looping then 1 else 0)
    }

    /** One turn of the worker loop keeps `Progress`, advancing `k` by the messages it ran. */
    method WorkerTurn(ghost startedAs: WorkerPc, ghost initial: MailboxState, ghost done: seq<Message>,
                      ghost backlog: seq<Message>, ghost k: nat, ghost requests: set<object>)
      returns (ghost k': nat)
      requires Valid() && Progress(startedAs, initial, done, backlog, k, requests)
      requires worker == Looping || (worker == AwaitingHandoff && selfQueue.waitMsgQueue != [])
      modifies this, selfQueue, selfQueue.buffers, selfQueue.Requests()
      ensures Valid() && Progress(startedAs, initial, done, backlog, k', requests)
      ensures Pending() < old(Pending())
      ensures old(executed) <= executed
      // an ask the turn did not run keeps its reply queue
      ensures forall r: ReplyMessage :: old(allocated(r)) && Ask(r) !in executed[|old(executed)|..] ==>
        r.replyQueue == old(r.replyQueue)
    {
      ghost var w0, e0, q0 := worker, executed, selfQueue.State();
      var taken := WorkerStep();
      assert executed[|e0|..] == if taken.Some? then [taken.value] else [];
      k' := k;
      if taken.Some? {
        AdvancedByOne(startedAs, initial, done, backlog, k, requests, w0, e0, q0, worker, executed, selfQueue.State(), taken.value);
        k' := k + 1;
      } else {
        AdvancedByParking(startedAs, initial, done, backlog, k, requests, w0, e0, q0, worker, executed, selfQueue.State());
      }
    }

    /**
     * The worker loop `while (_working) ErrorHandler(_selfQueue.PriorityDequeue()?.DoWork(this))`,
     * run until the task exits or blocks on an empty mailbox. It runs a prefix of the
     * mailbox's delivery order, one message at a time; it stops right after the first
     * `Stop` (or an ask that throws), and the rest stays in the mailbox.
     */
    method RunWorker()
      requires Valid()
      modifies this, selfQueue, selfQueue.buffers, selfQueue.Requests()
      ensures Valid()
      ensures RanPrefix(old(worker), old(selfQueue.State()), old(executed), worker, executed, selfQueue.State())
      ensures old(executed) <= executed
      // an ask the loop did not run keeps its reply queue
      ensures forall r: ReplyMessage :: old(allocated(r)) && Ask(r) !in executed[|old(executed)|..] ==>
        r.replyQueue == old(r.replyQueue)
    {
      ghost var initial := selfQueue.State();
      ghost var backlog := Backlog(initial);
      ghost var done := executed;
      ghost var requests := selfQueue.Requests();
      ghost var startedAs := worker;
      ghost var k: nat := 0;
      while worker == Looping || (worker == AwaitingHandoff && selfQueue.waitMsgQueue != [])
        invariant Valid() && Progress(startedAs, initial, done, backlog, k, requests)
        invariant done <= executed
        invariant forall r: ReplyMessage :: old(allocated(r)) && Ask(r) !in executed[|done|..] ==>
          r.replyQueue == old(r.replyQueue)
        decreases Pending()
      {
        ghost var e0 := executed;
        label Turn:
        k := WorkerTurn(startedAs, initial, done, backlog, k, requests);
        forall r: ReplyMessage | old(allocated(r)) && Ask(r) !in executed[|done|..]
          ensures r.replyQueue == old(r.replyQueue)
        {
          NotRunSplits(done, e0, executed, Ask(r));
          assert r.replyQueue == old@Turn(r.replyQueue);
        }
      }
      AdvancedToTheEnd(startedAs, initial, done, backlog, k, requests, worker, executed, selfQueue.State());
    }
  }

  /** A message missing from what ran since `done` is missing from both parts of that run. */
  lemma NotRunSplits(done: seq<Message>, mid: seq<Message>, last: seq<Message>, m: Message)
    requires done <= mid <= last
    ensures m !in last[|done|..] ==> m !in mid[|done|..] && m !in last[|mid|..]
  {
    assert last[|done|..] == mid[|done|..] + last[|mid|..];
  }

  /**
   * What a run of the worker loop leaves, started at `startedAs` on mailbox `initial` with
   * `done` already run and ending at `worker` with `executed` run and the mailbox at `q`.
   * A worker that was not running does nothing. A running worker runs a prefix of the
   * mailbox's delivery order, `k` messages, and the rest stays in the mailbox; no `Stop`
   * comes before its last message; if it exited, its last message was a `Stop` or an ask,
   * and otherwise it parked on an empty mailbox having run everything, with no `Stop` in it.
   */
  ghost predicate RanPrefix(startedAs: WorkerPc, initial: MailboxState, done: seq<Message>,
                            worker: WorkerPc, executed: seq<Message>, q: MailboxState)
  {
    && (startedAs == NotStarted || startedAs == Exited ==>
          worker == startedAs && executed == done && q == initial)
    && (startedAs == Looping || startedAs == AwaitingHandoff ==>
          var backlog := Backlog(initial);
          var k := |executed| - |done|;
          && 0 <= k <= |backlog|
          && executed == done + backlog[..k]
          && Backlog(q) == backlog[k..]
          && (forall j :: 0 <= j < k - 1 ==> backlog[j] != Stop)
          && (worker == Exited ==> 0 < k && (backlog[k - 1] == Stop || backlog[k - 1].Ask?))
          && (worker != Exited ==> worker == AwaitingHandoff && k == |backlog| && Stop !in backlog))
  }

  /**
   * The worker loop's progress on values: from `initial` (with `done` already run) the
   * worker, now at `worker` with `executed` run and the mailbox at `q`, has run the first
   * `k` messages of `backlog`, stopping after the first `Stop` at the latest.
   */
  ghost predicate Advanced(startedAs: WorkerPc, initial: MailboxState, done: seq<Message>, backlog: seq<Message>,
                           k: nat, requests: set<object>, worker: WorkerPc, executed: seq<Message>, q: MailboxState)
  {
    && (startedAs == NotStarted || startedAs == Exited ==> worker == startedAs && k == 0 && q == initial)
    && (startedAs != NotStarted ==> worker != NotStarted)
    && k <= |backlog|
    && executed == done + backlog[..k]
    && Backlog(q) == backlog[k..]
    && (forall j :: 0 <= j < k - 1 ==> backlog[j] != Stop)
    && (worker != Exited ==> forall j :: 0 <= j < k ==> backlog[j] != Stop)
    && (worker == Exited && startedAs != Exited ==> 0 < k && (backlog[k - 1] == Stop || backlog[k - 1].Ask?))
    && RequestsIn(Backlog(q)) <= requests
  }

  /** Running the head of the mailbox advances the worker by one message. */
  lemma AdvancedByOne(startedAs: WorkerPc, initial: MailboxState, done: seq<Message>, backlog: seq<Message>,
                      k: nat, requests: set<object>, w0: WorkerPc, e0: seq<Message>, q0: MailboxState,
                      w1: WorkerPc, e1: seq<Message>, q1: MailboxState, m: Message)
    requires Advanced(startedAs, initial, done, backlog, k, requests, w0, e0, q0)
    requires w0 == Looping || w0 == AwaitingHandoff
    requires Backlog(q0) != [] && m == Backlog(q0)[0] && Backlog(q1) == Backlog(q0)[1..]
    requires e1 == e0 + [m]
    requires m == Stop ==> w1 == Exited
    requires w1 == Exited ==> m == Stop || m.Ask?
    requires w1 != NotStarted
    requires RequestsIn(Backlog(q1)) <= RequestsIn(Backlog(q0))
    ensures Advanced(startedAs, initial, done, backlog, k + 1, requests, w1, e1, q1)
  {
    assert backlog[k..][1..] == backlog[k + 1..];
    assert backlog[..k + 1] == backlog[..k] + [m];
  }

  /** Parking on an empty mailbox runs nothing and keeps the worker's progress. */
  lemma AdvancedByParking(startedAs: WorkerPc, initial: MailboxState, done: seq<Message>, backlog: seq<Message>,
                          k: nat, requests: set<object>, w0: WorkerPc, e0: seq<Message>, q0: MailboxState,
                          w1: WorkerPc, e1: seq<Message>, q1: MailboxState)
    requires Advanced(startedAs, initial, done, backlog, k, requests, w0, e0, q0)
    requires w0 == Looping || w0 == AwaitingHandoff
    requires w1 == AwaitingHandoff && e1 == e0 && Backlog(q1) == Backlog(q0)
    ensures Advanced(startedAs, initial, done, backlog, k, requests, w1, e1, q1)
  {
  }

  /**
   * Where the loop leaves the worker: either it never ran, or it ran a prefix of the
   * backlog and either exited on its last message or parked on an empty mailbox.
   */
  lemma AdvancedToTheEnd(startedAs: WorkerPc, initial: MailboxState, done: seq<Message>, backlog: seq<Message>,
                         k: nat, requests: set<object>, worker: WorkerPc, executed: seq<Message>, q: MailboxState)
    requires Advanced(startedAs, initial, done, backlog, k, requests, worker, executed, q)
    requires backlog == Backlog(initial) && Inv(q) && (worker == AwaitingHandoff ==> q.parked == 1 && q.leaked == 0)
    requires !(worker == Looping || (worker == AwaitingHandoff && q.handoff != []))
    ensures RanPrefix(startedAs, initial, done, worker, executed, q)
  {
    if worker == AwaitingHandoff {
      ParkedConsumersSeeEmptyTiers(q);
      assert Backlog(q) == [];
    }
  }
}
