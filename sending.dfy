/**
 * Sending messages through a handle (ActorFramework/Messages/Message.cs and StopActor.cs):
 * the null-safe fire-and-forget send, the ask pattern and the stop signal.
 *
 * `SendMessageAndWaitForResponse` blocks between sending and receiving; it is modelled
 * as its two halves, `SendRequest` and `WaitForResponse`, so that the receiver's worker
 * can run in between.
 */
module Sending {
  import opened Wrappers
  import opened Messages
  import opened Mailbox

  /** The target mailbox a possibly-null handle can change. */
  ghost function Target(q: MessageEnqueue?): set<object>
  {
    if q == null then {} else q.queue.Repr()
  }

  /** `Message.SendMessage`: a null handle is ignored; otherwise one enqueue at `priority`. */
  method SendMessage(q: MessageEnqueue?, msg: Message, priority: MessagePriority := Normal)
    requires q != null ==> q.queue.Valid()
    modifies Target(q)
    ensures q != null ==> q.queue.Valid() && q.queue.State() == EnqueueAt(old(q.queue.State()), msg, priority)
  {
    if q != null {
      q.Enqueue(msg, priority);
    }
  }

  /**
   * The outcome of the caller's wait for its reply: a value, still blocked, or the
   * exception `TryTake` throws for a timeout below -1.
   */
  datatype Response = Answer(value: int) | StillWaiting | TimeoutRejected

  /** `default(T)` for the reply type `int`. */
  const DefaultAnswer: int := 0

  /**
   * First half of `SendMessageAndWaitForResponse`: install a fresh, empty reply queue on
   * the request, then send it.
   */
  method SendRequest(q: MessageEnqueue?, msg: ReplyMessage, priority: MessagePriority := Normal)
    requires q != null ==> q.queue.Valid()
    modifies msg, Target(q)
    ensures msg.replyQueue == Some([])
    ensures q != null ==> q.queue.Valid() && q.queue.State() == EnqueueAt(old(q.queue.State()), Ask(msg), priority)
  {
    msg.replyQueue := Some([]);
    SendMessage(q, Ask(msg), priority);
  }

  /**
   * Second half: a timeout below -1 is rejected before anything is taken; otherwise take
   * the reply if one has arrived; otherwise a finite timeout that has `expired` (a zero
   * timeout always has) yields the default value, and a timeout of -1 keeps the caller waiting.
   */
  method WaitForResponse(msg: ReplyMessage, timeout: int, expired: bool) returns (r: Response)
    requires msg.replyQueue.Some?
    modifies msg
    ensures r == TimeoutRejected <==> timeout < -1
    ensures timeout < -1 ==> msg.replyQueue == old(msg.replyQueue)
    ensures timeout >= -1 ==>
      var items := old(msg.replyQueue).value;
      && (items != [] ==> r == Answer(items[0]) && msg.replyQueue == Some(items[1..]))
      && (items == [] && timeout != -1 && (timeout == 0 || expired) ==>
            r == Answer(DefaultAnswer) && msg.replyQueue == Some([]))
      && (r == StillWaiting <==> items == [] && (timeout == -1 || (timeout > 0 && !expired)))
      && (r == StillWaiting ==> msg.replyQueue == Some([]))
  {
    var items := msg.replyQueue.value;
    if timeout < -1 {
      r := TimeoutRejected;
    } else if items != [] {
      r := Answer(items[0]);
      msg.replyQueue := Some(items[1..]);
    } else if timeout != -1 && (timeout == 0 || expired) {
      r := Answer(DefaultAnswer);
    } else {
      r := StillWaiting;
    }
  }

  /** The mailbox after a stop signal: tier 0 when urgent, otherwise `Normal`. */
  function StopPosted(s: MailboxState, emergency: bool): (r: MailboxState)
    requires Inv(s)
    ensures Inv(r) && r.parked == s.parked
    ensures emergency ==> EnqueueStep(s, Stop, CriticalTier) == Some(r)
    ensures !emergency ==> r == EnqueueAt(s, Stop, Normal)
  {
    if emergency then EnqueueStep(s, Stop, CriticalTier).value else EnqueueAt(s, Stop, Normal)
  }

  /** Either way, a stop signal adds exactly one `Stop` to what the mailbox holds, and nothing else. */
  lemma StopPostedAddsOneStop(s: MailboxState, emergency: bool)
    requires Inv(s)
    ensures multiset(Backlog(StopPosted(s, emergency))) == multiset(Backlog(s)) + multiset{Stop}
  {
    if emergency {
      EnqueueAddsExactlyOne(s, Stop, CriticalTier);
    } else {
      EnqueueAddsExactlyOne(s, Stop, Tier(Normal));
    }
  }

  /** `StopActor.SendStopMsg`: one `Stop` at tier 0 when urgent, otherwise at `Normal`. */
  method SendStopMsg(queue: MessageEnqueue, emergency: bool := true)
    requires queue.queue.Valid()
    modifies queue.queue.Repr()
    ensures queue.queue.Valid()
    ensures queue.queue.State() == StopPosted(old(queue.queue.State()), emergency)
  {
    if emergency {
      queue.EnqueueCritical(Stop);
    } else {
      queue.Enqueue(Stop);
    }
  }
}
