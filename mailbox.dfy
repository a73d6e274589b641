/**
 * The priority mailbox and its write-only handle (ActorFramework/MessagePriorityQueue.cs).
 *
 * A mailbox has four FIFO tiers (0 is the most urgent), a count `waiting` of consumers
 * that found nothing and are parked, and a hand-off queue through which a producer
 * delivers straight to a parked consumer. `PriorityDequeue` is split into its two
 * atomic steps: the locked section (`LockedDequeueStep`) and the wait on the hand-off
 * queue with its timeout (`WaitStep`); enqueues can run between them. The pure
 * functions over `MailboxState` specify each step; the class runs the steps in place.
 */
module Mailbox {
  import opened Wrappers
  import opened Messages

  /** The caller-visible priorities of the `MessagePriority` enum. */
  datatype MessagePriority = Low | Normal | High

  const TierCount: nat := 4

  /** The tier used by `EnqueueCritical`, above every `MessagePriority`. */
  const CriticalTier: nat := 0

  /** `(int)priority`: the enum's numeric value, which is the tier a message lands in. */
  function Tier(p: MessagePriority): (t: nat)
    ensures 0 < t < TierCount
    ensures p == High ==> t == 1
    ensures p == Normal ==> t == 2
    ensures p == Low ==> t == 3
  {
    match p
    case High => 1
    case Normal => 2
    case Low => 3
  }

  /** Distinct priorities never share a tier, and none of them is the critical tier. */
  lemma TierInjective(p: MessagePriority, q: MessagePriority)
    ensures Tier(p) == Tier(q) <==> p == q
    ensures Tier(p) != CriticalTier
  {
  }

  /** The tiers read in the order `Flush` empties them: tier 0 first, FIFO within each tier. */
  function Flattened(tiers: seq<seq<Message>>): seq<Message>
  {
    if tiers == [] then [] else tiers[0] + Flattened(tiers[1..])
  }

  predicate AllEmpty(tiers: seq<seq<Message>>)
  {
    forall i :: 0 <= i < |tiers| ==> tiers[i] == []
  }

  /**
   * A snapshot of a mailbox. `parked` counts the `PriorityDequeue` calls that have left
   * the locked section and have not yet returned, and `leaked` the calls that left it
   * by an exception without giving back their `waiting` slot; neither is a field of the
   * C# class.
   */
  datatype MailboxState = MailboxState(
    tiers: seq<seq<Message>>,
    handoff: seq<Message>,
    waiting: int,
    parked: nat,
    leaked: nat)

  /**
   * The mailbox invariant: four tiers, a non-negative `waiting` that counts the parked
   * consumers not yet served by a hand-off (plus the leaked slots), and empty tiers
   * while `waiting` is positive.
   */
  predicate Inv(s: MailboxState)
  {
    && |s.tiers| == TierCount
    && s.waiting >= 0
    && s.waiting + |s.handoff| == s.parked + s.leaked
    && (s.waiting > 0 ==> AllEmpty(s.tiers))
  }

  /** A freshly constructed mailbox. */
  function EmptyMailbox(): (s: MailboxState)
    ensures Inv(s) && s.waiting == 0 && s.parked == 0 && s.leaked == 0 && Backlog(s) == []
  {
    MailboxState([[], [], [], []], [], 0, 0, 0)
  }

  /** Every message the mailbox holds, in the order a single consumer receives them. */
  function Backlog(s: MailboxState): seq<Message>
  {
    s.handoff + Flattened(s.tiers)
  }

  /**
   * `PriorityEnqueue(msg, priority)`. With nobody waiting the message joins the back of
   * its tier, and an index outside the four tiers throws (`None`); with someone waiting
   * it is handed off, whatever the priority, and `waiting` drops by one.
   */
  function EnqueueStep(s: MailboxState, msg: Message, priority: int): (r: Option<MailboxState>)
    requires Inv(s)
    ensures r.Some? ==> Inv(r.value) && r.value.parked == s.parked && r.value.leaked == s.leaked
    ensures r.None? <==> s.waiting == 0 && !(0 <= priority < TierCount)
    ensures s.waiting == 0 && r.Some? ==>
      && r.value.tiers[priority] == s.tiers[priority] + [msg]
      && (forall i :: 0 <= i < TierCount && i != priority ==> r.value.tiers[i] == s.tiers[i])
      && r.value.handoff == s.handoff
      && r.value.waiting == 0
    ensures s.waiting != 0 ==>
      && r.Some?
      && r.value.tiers == s.tiers
      && r.value.handoff == s.handoff + [msg]
      && r.value.waiting == s.waiting - 1
  {
    if s.waiting == 0 then
      if 0 <= priority < TierCount then
        Some(s.(tiers := s.tiers[priority := s.tiers[priority] + [msg]]))
      else
        None
    else
      Some(s.(handoff := s.handoff + [msg], waiting := s.waiting - 1))
  }

  /** The `MessagePriority` overload: never throws, and with nobody waiting lands in tier `Tier(p)`. */
  function EnqueueAt(s: MailboxState, msg: Message, p: MessagePriority): (r: MailboxState)
    requires Inv(s)
    ensures Inv(r) && r.parked == s.parked && r.leaked == s.leaked
    ensures EnqueueStep(s, msg, Tier(p)) == Some(r)
  {
    EnqueueStep(s, msg, Tier(p)).value
  }

  /** The index of the most urgent non-empty tier, or `|tiers|` when all are empty. */
  function FirstNonEmpty(tiers: seq<seq<Message>>): (i: nat)
    ensures i <= |tiers|
    ensures forall j :: 0 <= j < i ==> tiers[j] == []
    ensures i < |tiers| ==> tiers[i] != []
  {
    if tiers == [] then 0
    else if tiers[0] != [] then 0
    else 1 + FirstNonEmpty(tiers[1..])
  }

  /** What the locked section of `PriorityDequeue` decides: a message, or park. */
  datatype Taken = Got(msg: Message) | Parked

  /**
   * The locked section of `PriorityDequeue`. With nobody waiting and a message buffered,
   * it removes the front of the most urgent non-empty tier. Otherwise it leaves the
   * tiers alone and registers the caller as parked.
   */
  function LockedDequeueStep(s: MailboxState): (r: (Taken, MailboxState))
    requires Inv(s)
    ensures Inv(r.1)
    ensures r.0.Got? <==> s.waiting == 0 && !AllEmpty(s.tiers)
    ensures r.0.Got? ==>
      var i := FirstNonEmpty(s.tiers);
      && i < TierCount
      && r.0.msg == s.tiers[i][0]
      && r.1.tiers[i] == s.tiers[i][1..]
      && (forall j :: 0 <= j < TierCount && j != i ==> r.1.tiers[j] == s.tiers[j])
      && r.1.handoff == s.handoff && r.1.waiting == s.waiting && r.1.parked == s.parked
    ensures r.1.leaked == s.leaked
    ensures r.0.Parked? ==>
      && r.1.tiers == s.tiers && r.1.handoff == s.handoff
      && r.1.waiting == s.waiting + 1 && r.1.parked == s.parked + 1
  {
    var i := FirstNonEmpty(s.tiers);
    if s.waiting == 0 && i < TierCount then
      (Got(s.tiers[i][0]), s.(tiers := s.tiers[i := s.tiers[i][1..]]))
    else
      (Parked, s.(waiting := s.waiting + 1, parked := s.parked + 1))
  }

  /** How a parked consumer's wait on the hand-off queue ends in one step. */
  datatype Wakeup = Delivered(msg: Message) | TimedOut | Blocked | Rejected

  /**
   * The wait after the locked section. A timeout below -1 makes `TryTake` throw before it
   * looks at the queue: the call ends with an exception and its `waiting` slot is never
   * given back. Otherwise a handed-off message is taken in arrival order. With none
   * there, a finite timeout that has `expired` (a zero timeout always has) ends the call
   * with no message and gives back the `waiting` slot; a timeout of -1 never expires, so
   * the consumer stays blocked.
   */
  function WaitStep(s: MailboxState, timeout: int, expired: bool): (r: (Wakeup, MailboxState))
    requires Inv(s) && s.parked > 0
    ensures Inv(r.1)
    ensures r.1.tiers == s.tiers
    ensures r.0 == Rejected <==> timeout < -1
    ensures r.0 == Rejected ==> r.1 == s.(parked := s.parked - 1, leaked := s.leaked + 1)
    ensures timeout >= -1 ==> r.1.leaked == s.leaked
    ensures timeout >= -1 && s.handoff != [] ==>
      && r.0 == Delivered(s.handoff[0])
      && r.1.handoff == s.handoff[1..]
      && r.1.waiting == s.waiting && r.1.parked == s.parked - 1
    ensures timeout >= -1 && s.handoff == [] && timeout != -1 && (timeout == 0 || expired) ==>
      r.0 == TimedOut && r.1 == s.(waiting := s.waiting - 1, parked := s.parked - 1)
    ensures r.0 == Blocked <==> s.handoff == [] && (timeout == -1 || (timeout > 0 && !expired))
    ensures r.0 == Blocked ==> r.1 == s
  {
    if timeout < -1 then
      (Rejected, s.(parked := s.parked - 1, leaked := s.leaked + 1))
    else if s.handoff != [] then
      (Delivered(s.handoff[0]), s.(handoff := s.handoff[1..], parked := s.parked - 1))
    else if timeout != -1 && (timeout == 0 || expired) then
      (TimedOut, s.(waiting := s.waiting - 1, parked := s.parked - 1))
    else
      (Blocked, s)
  }

  /** `Flush`: every buffered message in tier-then-FIFO order; the hand-off queue and `waiting` stay. */
  function FlushStep(s: MailboxState): (r: (seq<Message>, MailboxState))
    requires Inv(s)
    ensures Inv(r.1)
    ensures r.0 == Flattened(s.tiers)
    ensures |r.1.tiers| == TierCount && AllEmpty(r.1.tiers)
    ensures r.1.handoff == s.handoff && r.1.waiting == s.waiting && r.1.parked == s.parked
    ensures r.1.leaked == s.leaked
  {
    (Flattened(s.tiers), s.(tiers := [[], [], [], []]))
  }

  // ---------------------------------------------------------------------------
  // Facts about the tiers read as one sequence

  lemma {:induction false} FlattenedSnoc(tiers: seq<seq<Message>>, last: seq<Message>)
    ensures Flattened(tiers + [last]) == Flattened(tiers) + last
  {
    if tiers == [] {
      assert [] + [last] == [last];
      assert [last][1..] == [];
    } else {
      assert (tiers + [last])[1..] == tiers[1..] + [last];
      FlattenedSnoc(tiers[1..], last);
    }
  }

  lemma {:induction false} FlattenedAllEmpty(tiers: seq<seq<Message>>)
    ensures AllEmpty(tiers) <==> Flattened(tiers) == []
  {
    if tiers != [] {
      FlattenedAllEmpty(tiers[1..]);
      assert AllEmpty(tiers) <==> tiers[0] == [] && AllEmpty(tiers[1..]) by {
        if tiers[0] == [] && AllEmpty(tiers[1..]) {
          forall i | 0 <= i < |tiers| ensures tiers[i] == [] {
            if i > 0 { assert tiers[i] == tiers[1..][i - 1]; }
          }
        }
      }
    }
  }

  /**
   * Removing the front of the most urgent non-empty tier removes the front of the
   * flattened sequence and nothing else.
   */
  lemma {:induction false} FlattenedPopFront(tiers: seq<seq<Message>>)
    requires FirstNonEmpty(tiers) < |tiers|
    ensures var i := FirstNonEmpty(tiers);
      && Flattened(tiers) != []
      && Flattened(tiers)[0] == tiers[i][0]
      && Flattened(tiers[i := tiers[i][1..]]) == Flattened(tiers)[1..]
  {
    var i := FirstNonEmpty(tiers);
    if i == 0 {
      var t := tiers[0 := tiers[0][1..]];
      assert t[1..] == tiers[1..];
    } else {
      assert tiers[0] == [];
      assert FirstNonEmpty(tiers[1..]) == i - 1;
      FlattenedPopFront(tiers[1..]);
      var t := tiers[i := tiers[i][1..]];
      assert t[1..] == tiers[1..][i - 1 := tiers[1..][i - 1][1..]];
      assert t[0] == [];
    }
  }

  /** Appending to one tier adds exactly that message to the flattened contents. */
  lemma {:induction false} FlattenedAppend(tiers: seq<seq<Message>>, p: nat, msg: Message)
    requires p < |tiers|
    ensures multiset(Flattened(tiers[p := tiers[p] + [msg]])) == multiset(Flattened(tiers)) + multiset{msg}
  {
    var t := tiers[p := tiers[p] + [msg]];
    if p == 0 {
      assert t[1..] == tiers[1..];
    } else {
      assert t[1..] == tiers[1..][p - 1 := tiers[1..][p - 1] + [msg]];
      FlattenedAppend(tiers[1..], p - 1, msg);
    }
  }

  // ---------------------------------------------------------------------------
  // Properties of the mailbox steps

  /** With nobody parked, an enqueue is a single append to one tier, and the tiers as a whole say so. */
  lemma BufferedEnqueue(s: MailboxState, msg: Message, priority: int)
    requires Inv(s) && s.waiting == 0 && 0 <= priority < TierCount
    ensures EnqueueStep(s, msg, priority) == Some(s.(tiers := s.tiers[priority := s.tiers[priority] + [msg]]))
  {
  }

  /**
   * Each successful enqueue adds exactly one message, the given one, to what the
   * mailbox holds (one tier or the hand-off queue).
   */
  lemma EnqueueAddsExactlyOne(s: MailboxState, msg: Message, priority: int)
    requires Inv(s) && EnqueueStep(s, msg, priority).Some?
    ensures multiset(Backlog(EnqueueStep(s, msg, priority).value)) == multiset(Backlog(s)) + multiset{msg}
  {
    if s.waiting == 0 {
      FlattenedAppend(s.tiers, priority, msg);
    }
  }

  /**
   * Priority order with FIFO within a tier: the locked section hands out exactly the
   * first message that `Flush` would return, and leaves the rest of that order intact.
   */
  lemma LockedDequeueTakesFlushHead(s: MailboxState)
    requires Inv(s) && LockedDequeueStep(s).0.Got?
    ensures Flattened(s.tiers) != []
    ensures LockedDequeueStep(s).0.msg == Flattened(s.tiers)[0]
    ensures Flattened(LockedDequeueStep(s).1.tiers) == Flattened(s.tiers)[1..]
  {
    FlattenedPopFront(s.tiers);
  }

  /**
   * With no dequeue in progress elsewhere, the locked section hands out the head of the
   * whole delivery order.
   */
  lemma LoneConsumerTakesBacklogHead(s: MailboxState)
    requires Inv(s) && s.parked == 0 && s.leaked == 0 && LockedDequeueStep(s).0.Got?
    ensures Backlog(s) != [] && LockedDequeueStep(s).0.msg == Backlog(s)[0]
    ensures Backlog(LockedDequeueStep(s).1) == Backlog(s)[1..]
  {
    LockedDequeueTakesFlushHead(s);
  }

  /** A hand-off delivers the head of the delivery order, and what is left keeps its order. */
  lemma HandoffDeliversBacklogHead(s: MailboxState, timeout: int, expired: bool)
    requires Inv(s) && s.parked > 0 && WaitStep(s, timeout, expired).0.Delivered?
    ensures Backlog(s) != [] && WaitStep(s, timeout, expired).0.msg == Backlog(s)[0]
    ensures Backlog(WaitStep(s, timeout, expired).1) == Backlog(s)[1..]
  {
  }

  /** The reply objects of the ask requests among `ms`. */
  function RequestsIn(ms: seq<Message>): set<ReplyMessage>
  {
    set m | m in ms && m.Ask? :: m.request
  }

  lemma RequestsInTail(ms: seq<Message>)
    requires ms != []
    ensures RequestsIn(ms[1..]) <= RequestsIn(ms)
    ensures ms[0].Ask? ==> ms[0].request in RequestsIn(ms)
  {
    if ms[0].Ask? {
      assert ms[0] in ms;
    }
    forall r | r in RequestsIn(ms[1..]) ensures r in RequestsIn(ms) {
      var m :| m in ms[1..] && m.Ask? && m.request == r;
      assert m in ms;
    }
  }

  /** The locked section parks the caller exactly when it finds nothing buffered or someone already waits. */
  lemma LockedDequeueParksIffNothingToTake(s: MailboxState)
    requires Inv(s)
    ensures LockedDequeueStep(s).0.Parked? <==> s.waiting != 0 || Flattened(s.tiers) == []
  {
    FlattenedAllEmpty(s.tiers);
  }

  /** The messages a lone consumer receives by dequeuing until it would park. */
  function Drained(s: MailboxState): seq<Message>
    requires Inv(s)
    decreases |Flattened(s.tiers)|
  {
    var (t, next) := LockedDequeueStep(s);
    if t.Got? then
      LockedDequeueTakesFlushHead(s);
      [t.msg] + Drained(next)
    else
      []
  }

  /**
   * Dequeuing one message at a time, with nobody waiting, observes every buffered message
   * in exactly the order `Flush` returns them: all of tier 0, then tier 1, and so on.
   */
  lemma {:induction false} DrainedIsFlushOrder(s: MailboxState)
    requires Inv(s) && s.waiting == 0
    ensures Drained(s) == FlushStep(s).0
    decreases |Flattened(s.tiers)|
  {
    var (t, next) := LockedDequeueStep(s);
    LockedDequeueParksIffNothingToTake(s);
    if t.Got? {
      LockedDequeueTakesFlushHead(s);
      DrainedIsFlushOrder(next);
    }
  }

  /**
   * No lost wake-up between atomic steps: a parked consumer that no hand-off will serve
   * always sees every tier empty.
   */
  lemma ParkedConsumersSeeEmptyTiers(s: MailboxState)
    requires Inv(s) && s.parked > |s.handoff|
    ensures Flattened(s.tiers) == []
  {
    FlattenedAllEmpty(s.tiers);
  }

  /**
   * A call that parks and then times out with nothing handed off leaves the mailbox exactly
   * as it found it: `waiting` is back at its value before the call.
   */
  lemma TimeoutRestoresState(s: MailboxState, timeout: int)
    requires Inv(s) && timeout >= 0 && s.handoff == []
    requires LockedDequeueStep(s).0.Parked?
    ensures WaitStep(LockedDequeueStep(s).1, timeout, true) == (TimedOut, s)
  {
  }

  /** A second `Flush` right after the first returns nothing and changes nothing. */
  lemma FlushIdempotent(s: MailboxState)
    requires Inv(s)
    ensures FlushStep(FlushStep(s).1).0 == []
    ensures FlushStep(FlushStep(s).1).1 == FlushStep(s).1
  {
    FlattenedAllEmpty(FlushStep(s).1.tiers);
  }

  // ---------------------------------------------------------------------------
  // The mailbox object

  class MessagePriorityQueue {
    /** The four tier queues; the array itself is never replaced. */
    const buffers: array<seq<Message>>
    /** The hand-off queue (`_waitMsgQueue`). */
    var waitMsgQueue: seq<Message>
    /** The parked-consumer count (`_waiting`). */
    var waiting: int
    /** Dequeue calls between their locked section and their return. */
    ghost var parked: nat
    /** Dequeue calls that threw without giving back their `waiting` slot. */
    ghost var leaked: nat

    ghost function State(): MailboxState
      reads this, buffers
    {
      MailboxState(buffers[..], waitMsgQueue, waiting, parked, leaked)
    }

    ghost predicate Valid()
      reads this, buffers
    {
      buffers.Length == TierCount && Inv(State())
    }

    /** The objects a mailbox operation may change. */
    ghost function Repr(): set<object>
    {
      {this, buffers}
    }

    /** The reply objects of the ask requests the mailbox holds. */
    ghost function Requests(): set<ReplyMessage>
      reads this, buffers
    {
      RequestsIn(Backlog(State()))
    }

    constructor ()
      ensures Valid() && fresh(buffers)
      ensures State() == EmptyMailbox()
    {
      buffers := new seq<Message>[TierCount](_ => []);
      waitMsgQueue := [];
      waiting := 0;
      parked := 0;
      leaked := 0;
      new;
      assert buffers[..] == [[], [], [], []];
    }

    /** `PriorityEnqueue(msg, int)`; `ok` is false when the tier index throws. */
    method PriorityEnqueue(msg: Message, priority: int) returns (ok: bool)
      requires Valid()
      modifies this, buffers
      ensures Valid()
      ensures ok == EnqueueStep(old(State()), msg, priority).Some?
      ensures ok ==> State() == EnqueueStep(old(State()), msg, priority).value
      ensures !ok ==> State() == old(State())
    {
      if waiting == 0 {
        if 0 <= priority < buffers.Length {
          buffers[priority] := buffers[priority] + [msg];
          ok := true;
        } else {
          ok := false;
        }
      } else {
        waitMsgQueue := waitMsgQueue + [msg];
        waiting := waiting - 1;
        ok := true;
      }
    }

    /** `PriorityEnqueue(msg, MessagePriority)`. */
    method PriorityEnqueueAt(msg: Message, priority: MessagePriority)
      requires Valid()
      modifies this, buffers
      ensures Valid()
      ensures State() == EnqueueAt(old(State()), msg, priority)
    {
      var ok := PriorityEnqueue(msg, Tier(priority));
    }

    /** The locked section of `PriorityDequeue`, with its scan over the tiers. */
    method BeginDequeue() returns (t: Taken)
      requires Valid()
      modifies this, buffers
      ensures Valid()
      ensures (t, State()) == LockedDequeueStep(old(State()))
    {
      if waiting == 0 {
        var i := 0;
        while i < buffers.Length
          invariant 0 <= i <= buffers.Length
          invariant forall j :: 0 <= j < i ==> buffers[j] == []
          invariant State() == old(State())
        {
          if |buffers[i]| > 0 {
            assert FirstNonEmpty(buffers[..]) == i;
            t := Got(buffers[i][0]);
            buffers[i] := buffers[i][1..];
            return;
          }
          i := i + 1;
        }
      }
      waiting := waiting + 1;
      parked := parked + 1;
      t := Parked;
    }

    /** The wait on the hand-off queue that ends `PriorityDequeue(timeout)`. */
    method FinishDequeue(timeout: int, expired: bool) returns (w: Wakeup)
      requires Valid() && parked > 0
      modifies this
      ensures Valid()
      ensures (w, State()) == WaitStep(old(State()), timeout, expired)
    {
      if timeout < -1 {
        // TryTake rejects the timeout; `waiting` keeps the increment of the locked section
        parked := parked - 1;
        leaked := leaked + 1;
        w := Rejected;
      } else if waitMsgQueue != [] {
        w := Delivered(waitMsgQueue[0]);
        waitMsgQueue := waitMsgQueue[1..];
        parked := parked - 1;
      } else if timeout != -1 && (timeout == 0 || expired) {
        waiting := waiting - 1;
        parked := parked - 1;
        w := TimedOut;
      } else {
        w := Blocked;
      }
    }

    /** `Flush`: drains the tiers one message at a time, tier 0 first. */
    method Flush() returns (removed: seq<Message>)
      requires Valid()
      modifies buffers
      ensures Valid()
      ensures (removed, State()) == FlushStep(old(State()))
    {
      ghost var before := buffers[..];
      removed := [];
      var i := 0;
      while i < buffers.Length
        invariant 0 <= i <= buffers.Length
        invariant forall j :: 0 <= j < i ==> buffers[j] == []
        invariant forall j :: i <= j < buffers.Length ==> buffers[j] == before[j]
        invariant removed == Flattened(before[..i])
      {
        while |buffers[i]| > 0
          invariant forall j :: 0 <= j < i ==> buffers[j] == []
          invariant forall j :: i < j < buffers.Length ==> buffers[j] == before[j]
          invariant removed + buffers[i] == Flattened(before[..i]) + before[i]
        {
          removed := removed + [buffers[i][0]];
          buffers[i] := buffers[i][1..];
        }
        assert before[..i + 1] == before[..i] + [before[i]];
        FlattenedSnoc(before[..i], before[i]);
        i := i + 1;
      }
      assert before[..i] == before;
      assert buffers[..] == [[], [], [], []];
    }

    /** `ReleasePriorityQueue`: the same as `Flush`. */
    method ReleasePriorityQueue() returns (removed: seq<Message>)
      requires Valid()
      modifies buffers
      ensures Valid()
      ensures (removed, State()) == FlushStep(old(State()))
    {
      removed := Flush();
    }
  }

  /** The write-only capability to a mailbox (`MessageEnqueue`): it can enqueue, never dequeue. */
  class MessageEnqueue {
    const queue: MessagePriorityQueue

    constructor (queue: MessagePriorityQueue)
      ensures this.queue == queue
    {
      this.queue := queue;
    }

    /** `Enqueue(msg, priority = Normal)`. */
    method Enqueue(msg: Message, priority: MessagePriority := Normal)
      requires queue.Valid()
      modifies queue.Repr()
      ensures queue.Valid()
      ensures queue.State() == EnqueueAt(old(queue.State()), msg, priority)
    {
      queue.PriorityEnqueueAt(msg, priority);
    }

    /** `EnqueueCritical`: always tier 0. */
    method EnqueueCritical(msg: Message)
      requires queue.Valid()
      modifies queue.Repr()
      ensures queue.Valid()
      ensures EnqueueStep(old(queue.State()), msg, CriticalTier) == Some(queue.State())
    {
      var ok := queue.PriorityEnqueue(msg, CriticalTier);
    }
  }
}
