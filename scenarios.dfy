/**
 * End-to-end runs of the runtime on objects they create themselves: what a client of the
 * library observes when it launches an actor, sends to it and waits.
 */
module Scenarios {
  import opened Wrappers
  import opened Errors
  import opened Messages
  import opened Mailbox
  import opened Sending
  import opened Actors
  import opened Resender

  /**
   * The delivery order of a fresh mailbox after `m1` at `Normal`, `m2` at `High` and an
   * urgent stop: the stop first, then `High`, then `Normal`.
   */
  lemma StopJumpsTheQueue(m1: Message, m2: Message)
    ensures var s := StopPosted(EnqueueAt(EnqueueAt(EmptyMailbox(), m1, Normal), m2, High), true);
      Backlog(s) == [Stop, m2, m1] && s.parked == 0 && s.leaked == 0
  {
    var s0 := EmptyMailbox();
    assert s0.tiers == [[], [], [], []];
    BufferedEnqueue(s0, m1, Tier(Normal));
    var s1 := EnqueueAt(s0, m1, Normal);
    assert s1.tiers == s0.tiers[2 := [] + [m1]];
    assert [] + [m1] == [m1];
    BufferedEnqueue(s1, m2, Tier(High));
    var s2 := EnqueueAt(s1, m2, High);
    assert s2.tiers == s1.tiers[1 := [] + [m2]];
    assert [] + [m2] == [m2];
    BufferedEnqueue(s2, Stop, CriticalTier);
    var s3 := StopPosted(s2, true);
    assert s3.tiers == s2.tiers[0 := [] + [Stop]];
    assert [] + [Stop] == [Stop];
    assert s3.tiers == [[Stop], [m2], [m1], []];
    assert Flattened(s3.tiers[3..]) == [] by {
      assert s3.tiers[3..][1..] == [];
    }
    assert Flattened(s3.tiers[2..]) == [m1] by {
      assert s3.tiers[2..][1..] == s3.tiers[3..];
    }
    assert Flattened(s3.tiers[1..]) == [m2, m1] by {
      assert s3.tiers[1..][1..] == s3.tiers[2..];
    }
  }

  /**
   * What the worker loop's contract leaves when the stop is first in line: the loop
   * exited, after exactly one message.
   */
  lemma RunStopsAtFirstStop(backlog: seq<Message>, k: int, exited: bool)
    requires backlog != [] && backlog[0] == Stop && 0 <= k <= |backlog|
    requires forall j :: 0 <= j < k - 1 ==> backlog[j] != Stop
    requires exited ==> 0 < k
    requires !exited ==> Stop !in backlog
    ensures exited && k == 1
  {
    assert backlog[0] in backlog;
  }

  /** A stop and two messages that are not asks hold no reply object. */
  lemma StopAndPlainsCarryNoRequests(m1: Message, m2: Message)
    requires !m1.Ask? && !m2.Ask?
    ensures RequestsIn([Stop, m2, m1]) == {}
  {
  }

  /** An ask posted to an empty mailbox with one parked consumer goes onto the hand-off queue alone. */
  lemma AskToParkedConsumer(r: ReplyMessage, p: MessagePriority)
    ensures var t := EnqueueAt(EmptyMailbox().(waiting := 1, parked := 1), Ask(r), p);
      Backlog(t) == [Ask(r)] && t.handoff != []
  {
    var t := EnqueueAt(EmptyMailbox().(waiting := 1, parked := 1), Ask(r), p);
    assert t.handoff == [Ask(r)] && AllEmpty(t.tiers);
    FlattenedAllEmpty(t.tiers);
  }

  /** Two asks posted at `Normal` sit in tier 2 in arrival order, and the first is the one taken. */
  lemma TwoAsksQueued(r1: ReplyMessage, r2: ReplyMessage)
    ensures var t := EnqueueAt(EnqueueAt(EmptyMailbox(), Ask(r1), Normal), Ask(r2), Normal);
      && Backlog(t) == [Ask(r1), Ask(r2)] && t.parked == 0
      && LockedDequeueStep(t).0 == Got(Ask(r1))
      && RequestsIn(Backlog(t)) == {r1, r2}
  {
    var s0 := EmptyMailbox();
    assert s0.tiers == [[], [], [], []];
    BufferedEnqueue(s0, Ask(r1), Tier(Normal));
    var s1 := EnqueueAt(s0, Ask(r1), Normal);
    assert s1.tiers == s0.tiers[2 := [] + [Ask(r1)]];
    assert [] + [Ask(r1)] == [Ask(r1)];
    assert s1.tiers == [[], [], [Ask(r1)], []];
    BufferedEnqueue(s1, Ask(r2), Tier(Normal));
    var s2 := EnqueueAt(s1, Ask(r2), Normal);
    assert s2.tiers == s1.tiers[2 := [Ask(r1)] + [Ask(r2)]];
    assert [Ask(r1)] + [Ask(r2)] == [Ask(r1), Ask(r2)];
    assert s2.tiers == [[], [], [Ask(r1), Ask(r2)], []];
    assert Flattened(s2.tiers[3..]) == [] by {
      assert s2.tiers[3..][1..] == [];
    }
    assert Flattened(s2.tiers[2..]) == [Ask(r1), Ask(r2)] by {
      assert s2.tiers[2..][1..] == s2.tiers[3..];
    }
    assert Flattened(s2.tiers[1..]) == [Ask(r1), Ask(r2)] by {
      assert s2.tiers[1..][1..] == s2.tiers[2..];
    }
    assert FirstNonEmpty(s2.tiers) == 2 by {
      assert s2.tiers[1..][1..] == s2.tiers[2..];
    }
    RequestsOfTwoAsks(r1, r2);
  }

  /** The request objects of two asks are exactly their two reply objects. */
  lemma RequestsOfTwoAsks(r1: ReplyMessage, r2: ReplyMessage)
    ensures RequestsIn([Ask(r1), Ask(r2)]) == {r1, r2}
  {
    var ms := [Ask(r1), Ask(r2)];
    forall r | r in RequestsIn(ms)
      ensures r == r1 || r == r2
    {
      var m :| m in ms && m.Ask? && m.request == r;
    }
    assert ms[0] in ms && ms[1] in ms;
  }

  /** One `SendMessage` into an actor's own mailbox, framed to that mailbox alone. */
  method Post(a: Actor, h: MessageEnqueue, m: Message, p: MessagePriority)
    requires a.Valid() && h.queue == a.selfQueue
    modifies a.selfQueue, a.selfQueue.buffers
    ensures a.Valid()
    ensures a.selfQueue.State() == EnqueueAt(old(a.selfQueue.State()), m, p)
  {
    SendMessage(h, m, p);
  }

  /** One urgent `SendStopMsg` to an actor, framed to its own mailbox alone. */
  method PostStop(a: Actor, h: MessageEnqueue)
    requires a.Valid() && h.queue == a.selfQueue
    modifies a.selfQueue, a.selfQueue.buffers
    ensures a.Valid()
    ensures a.selfQueue.State() == StopPosted(old(a.selfQueue.State()), true)
  {
    SendStopMsg(h);
  }

  /** One `SendRequest` into an actor's own mailbox, framed to that mailbox and the request. */
  method PostRequest(a: Actor, h: MessageEnqueue, request: ReplyMessage, p: MessagePriority)
    requires a.Valid() && h.queue == a.selfQueue
    modifies a.selfQueue, a.selfQueue.buffers, request
    ensures a.Valid() && request.replyQueue == Some([])
    ensures a.selfQueue.State() == EnqueueAt(old(a.selfQueue.State()), Ask(request), p)
  {
    SendRequest(h, request, p);
  }

  /** A parked worker that is handed the ask `request` runs it: its reply is the answer. */
  method Serve(a: Actor, request: ReplyMessage)
    requires a.Valid() && a.worker == AwaitingHandoff
    requires Backlog(a.selfQueue.State()) == [Ask(request)] && a.selfQueue.waitMsgQueue != []
    requires request.replyQueue == Some([])
    modifies a, a.selfQueue, request
    ensures request.replyQueue == Some([request.answer])
  {
    assert a.selfQueue.Requests() == {request} by {
      assert Ask(request) in Backlog(a.selfQueue.State());
    }
    assert a.selfQueue.State().handoff[0] == Ask(request);
    label Handed:
    var taken := a.HandoffStep();
    assert taken == Some(Ask(request));
    // the reply queue held nothing before the ask ran
    ghost var before := old@Handed(request.replyQueue).value;
    assert before + [request.answer] == [request.answer];
  }

  /** A launched actor whose mailbox holds `m1` at `Normal`, `m2` at `High` and an urgent stop. */
  method LaunchWithStopQueued(m1: Message, m2: Message) returns (a: Actor)
    requires !m1.Ask? && !m2.Ask?
    ensures fresh(a) && fresh(a.selfQueue) && fresh(a.selfQueue.buffers)
    ensures fresh(a.callerQueue) && fresh(a.callerQueue.buffers)
    ensures a.Valid() && a.worker == Looping
    ensures Backlog(a.selfQueue.State()) == [Stop, m2, m1] && a.selfQueue.Requests() == {}
  {
    a := new Actor();
    var h := a.LaunchActor();
    Post(a, h, m1, Normal);
    Post(a, h, m2, High);
    PostStop(a, h);
    StopJumpsTheQueue(m1, m2);
    StopAndPlainsCarryNoRequests(m1, m2);
  }

  /**
   * A stop posted at tier 0 behind two buffered messages (`m1` at `Normal`, `m2` at `High`)
   * is run first: the worker exits after it, and both messages are left in the mailbox,
   * `High` before `Normal`. (Neither is an ask, whose reply object the worker could touch.)
   */
  method StopPreemptsBacklog(m1: Message, m2: Message) returns (left: seq<Message>, stopped: bool)
    requires !m1.Ask? && !m2.Ask?
    ensures stopped
    ensures left == [m2, m1]
  {
    var a := LaunchWithStopQueued(m1, m2);
    ghost var backlog := Backlog(a.selfQueue.State());
    ghost var before := a.executed;
    a.RunWorker();
    RunStopsAtFirstStop(backlog, |a.executed| - |before|, a.worker == Exited);
    stopped := a.worker == Exited;
    left := a.selfQueue.Flush();
  }

  /**
   * The ask pattern when the receiver is already parked on its empty mailbox: the request
   * is handed straight to the worker, which runs it, and the caller's infinite wait
   * returns exactly the receiver's answer.
   */
  method AskRoundTrip(answer: int, priority: MessagePriority) returns (r: Response)
    ensures r == Answer(answer)
  {
    var a := new Actor();
    var h := a.LaunchActor();
    var parked := a.DequeueStep();
    assert a.selfQueue.State() == EmptyMailbox().(waiting := 1, parked := 1);
    var request := new ReplyMessage(answer);
    PostRequest(a, h, request, priority);
    AskToParkedConsumer(request, priority);
    Serve(a, request);
    r := WaitForResponse(request, -1, false);
  }

  /** A launched actor with two asks at `Normal` in its mailbox, each with an empty reply queue. */
  method LaunchWithTwoAsks(answer1: int, answer2: int) returns (a: Actor, q1: ReplyMessage, q2: ReplyMessage)
    ensures fresh(a) && fresh(a.selfQueue) && fresh(a.selfQueue.buffers) && fresh(q1) && fresh(q2)
    ensures a.Valid() && a.worker == Looping && q1 != q2
    ensures q1.answer == answer1 && q1.replyQueue == Some([]) && q2.replyQueue == Some([])
    ensures LockedDequeueStep(a.selfQueue.State()).0 == Got(Ask(q1))
    ensures a.selfQueue.Requests() == {q1, q2}
  {
    a := new Actor();
    var h := a.LaunchActor();
    q1 := new ReplyMessage(answer1);
    q2 := new ReplyMessage(answer2);
    PostRequest(a, h, q1, Normal);
    PostRequest(a, h, q2, Normal);
    TwoAsksQueued(q1, q2);
  }

  /**
   * Two asks buffered in an actor's mailbox: the worker runs the first, whose caller gets
   * its answer, while the second keeps its empty reply queue and its caller goes on waiting.
   */
  method FirstAskLeavesSecondWaiting(answer1: int, answer2: int) returns (r1: Response, r2: Response)
    ensures r1 == Answer(answer1) && r2 == StillWaiting
  {
    var a, q1, q2 := LaunchWithTwoAsks(answer1, answer2);
    label Posted:
    var taken := a.DequeueStep();
    assert taken == Some(Ask(q1));
    ghost var before := old@Posted(q1.replyQueue).value;
    assert before + [answer1] == [answer1];
    r1 := WaitForResponse(q1, -1, false);
    r2 := WaitForResponse(q2, -1, false);
  }

  /**
   * The ask pattern when the receiver never runs: once a finite timeout has passed the
   * caller gets the default value.
   */
  method AskTimesOut(answer: int, timeout: int, priority: MessagePriority) returns (r: Response)
    requires timeout >= 0
    ensures r == Answer(DefaultAnswer)
  {
    var a := new Actor();
    var h := a.ReadSelfEnqueue();
    var request := new ReplyMessage(answer);
    SendRequest(h, request, priority);
    r := WaitForResponse(request, timeout, true);
  }

  /**
   * A resender asked for `copies` copies with a zero wait keeps going: `n` ticks, more
   * than `copies`, send `n` copies into the target mailbox and the loop is still running.
   */
  method ResenderIgnoresCopies(msg: Message, copies: Int32, n: nat) returns (sends: nat, delivered: seq<Message>, running: bool)
    requires 0 < copies < n <= 0x1000
    ensures sends == n && running
    ensures multiset(delivered) == multiset(Repeat(msg, n))
  {
    var target := new MessagePriorityQueue();
    var h := new MessageEnqueue(target);
    var resender := new TimeDelaySendMessage(h, msg, 0, copies);
    resender.LaunchActor();
    TimeoutsNeverExhaustAsWritten(resender.State(), n);
    ghost var empty := target.State();
    sends := resender.Run(Timeouts(n));
    running := resender.loop == Running;
    ghost var full := target.State();
    assert full == SentCopies(empty, msg, Normal, n);
    SentCopiesAddsCopies(empty, msg, Normal, n);
    assert full.handoff == [];
    assert Backlog(full) == Flattened(full.tiers);
    delivered := target.Flush();
  }
}
