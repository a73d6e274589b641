/**
 * The periodic resender (ActorFramework/TimeDelaySendMessage.cs): a loop that sends a
 * message every `MillisecondToWait` milliseconds to an actor's handle, steered by a FIFO
 * queue of control options and a remaining-copies counter.
 *
 * The loop runs on its own task; here one iteration is the atomic step `Tick`, and the
 * clock is the `expired` flag: a positive wait ends in a timeout only when the caller says
 * the time has passed, a zero wait always does, and a wait of -1 never does.
 */
module Resender {
  import opened Messages
  import opened Mailbox
  import opened Sending

  const Int32Min: int := -0x8000_0000
  const Int32Max: int := 0x7fff_ffff

  /** C#'s `int`. */
  type Int32 = x: int | Int32Min <= x <= Int32Max

  /** `x--` on an `int` in an unchecked context: the least value wraps to the greatest. */
  function Decrement(x: Int32): (r: Int32)
    ensures x > Int32Min ==> r == x - 1
    ensures x == Int32Min ==> r == Int32Max
  {
    if x == Int32Min then Int32Max else x - 1
  }

  datatype TimeDelayOptions =
    | SendNextCopyNow
    | SkipNextScheduledCopy
    | SendNextCopyNowAndStopAllFurtherCopies
    | StopAllFurtherCopies

  /** Where the resender's task is: not started, inside the loop, left it, or ended by an exception. */
  datatype LoopPc = NotLaunched | Running | Finished | Faulted

  /** The fields the loop reads and writes. */
  datatype ResenderState = ResenderState(
    isWorking: bool,
    residue: Int32,
    control: seq<TimeDelayOptions>,
    pc: LoopPc)

  /** The loop condition: the one in the source, and the one its comment describes. */
  datatype GuardRule = AsWritten | Intended

  /**
   * Whether the loop goes round again. As written, `IsWorking || _residueCopies == 0`;
   * intended, `IsWorking && _residueCopies != 0` tested after each iteration (a
   * `do { ... } while`): the loop stops when it is told to or when the count reaches zero,
   * and a count of `0` (already negative after the first decrement) means "until told to stop".
   */
  predicate Continues(rule: GuardRule, isWorking: bool, residue: int)
  {
    match rule
    case AsWritten => isWorking || residue == 0
    case Intended => isWorking && residue != 0
  }

  /** The two loop conditions case by case. */
  lemma ContinuesCases(rule: GuardRule, isWorking: bool, residue: int)
    // As written, the count never ends a loop that is still working.
    ensures rule == AsWritten && isWorking ==> Continues(rule, isWorking, residue)
    // Once told to stop, the loop ends, except as written with the count exactly at zero.
    ensures !isWorking ==> (Continues(rule, isWorking, residue) <==> rule == AsWritten && residue == 0)
    // Intended, a working loop ends exactly when the count reaches zero.
    ensures rule == Intended && isWorking ==> (Continues(rule, isWorking, residue) <==> residue != 0)
  {
  }

  predicate IsStopOption(o: TimeDelayOptions)
  {
    o == SendNextCopyNowAndStopAllFurtherCopies || o == StopAllFurtherCopies
  }

  predicate IsSendOption(o: TimeDelayOptions)
  {
    o == SendNextCopyNow || o == SendNextCopyNowAndStopAllFurtherCopies
  }

  /** The end of every completed iteration: one decrement, then the loop condition. */
  function EndIteration(s: ResenderState, rule: GuardRule): (r: ResenderState)
    ensures r.residue == Decrement(s.residue)
    ensures r.isWorking == s.isWorking && r.control == s.control
    ensures r.pc == (if Continues(rule, s.isWorking, r.residue) then Running else Finished)
  {
    var residue := Decrement(s.residue);
    s.(residue := residue, pc := if Continues(rule, s.isWorking, residue) then Running else Finished)
  }

  /**
   * One iteration of the loop from `Running`, with the wait `wait` it reads and the clock
   * flag `expired`; the result says whether a copy was sent. A wait below -1 makes
   * `TryTake` throw, which ends the task. A queued option is taken first, in arrival
   * order. With an empty control queue, a wait that has not timed out leaves the task
   * blocked in `TryTake`: the state does not change.
   */
  function Iterate(s: ResenderState, wait: int, expired: bool, rule: GuardRule): (r: (ResenderState, bool))
    requires s.pc == Running
    ensures wait < -1 ==> r == (s.(pc := Faulted), false)
    ensures wait >= -1 && s.control != [] ==>
      var o := s.control[0];
      && r.0.control == s.control[1..]
      && r.0.residue == Decrement(s.residue)
      && r.1 == IsSendOption(o)
      && r.0.isWorking == (s.isWorking && !IsStopOption(o))
      && r.0.pc == (if Continues(rule, r.0.isWorking, r.0.residue) then Running else Finished)
    ensures wait >= -1 && s.control == [] && (wait == 0 || (wait > 0 && expired)) ==>
      r == (s.(residue := Decrement(s.residue),
               pc := if Continues(rule, s.isWorking, Decrement(s.residue)) then Running else Finished), true)
    ensures s.control == [] && (wait == -1 || (wait > 0 && !expired)) ==> r == (s, false)
  {
    if wait < -1 then
      (s.(pc := Faulted), false)
    else if s.control != [] then
      var o := s.control[0];
      var isWorking := if IsStopOption(o) then false else s.isWorking;
      (EndIteration(s.(control := s.control[1..], isWorking := isWorking), rule), IsSendOption(o))
    else if wait == 0 || (wait > 0 && expired) then
      (EndIteration(s, rule), true)
    else
      (s, false)
  }

  /** `LaunchActor` before its first iteration: working, with the full count. */
  function Launched(s: ResenderState, copies: Int32): (r: ResenderState)
    ensures r.isWorking && r.residue == copies && r.control == s.control && r.pc == Running
    // The source's `while` tests its condition before the first iteration too, and it holds.
    ensures Continues(AsWritten, r.isWorking, r.residue)
  {
    s.(isWorking := true, residue := copies, pc := Running)
  }

  /** A resender as its constructor leaves it. */
  function Idle(): (r: ResenderState)
    ensures !r.isWorking && r.control == [] && r.pc == NotLaunched
  {
    ResenderState(false, 0, [], NotLaunched)
  }

  /**
   * The loop run over a series of clock flags, one per tick, with a fixed wait; ticks that
   * come after the task has left the loop change nothing. The result counts the copies sent.
   */
  function Ticks(s: ResenderState, wait: int, expireds: seq<bool>, rule: GuardRule): (r: (ResenderState, nat))
    ensures r.1 <= |expireds|
    ensures s.pc != Running ==> r == (s, 0)
    decreases |expireds|
  {
    if expireds == [] || s.pc != Running then
      (s, 0)
    else
      var step := Iterate(s, wait, expireds[0], rule);
      var rest := Ticks(step.0, wait, expireds[1..], rule);
      (rest.0, rest.1 + if step.1 then 1 else 0)
  }

  /** A run with ticks left, from a running loop, is the iteration `(after, sent)` and then the rest. */
  lemma TicksStep(s: ResenderState, wait: int, expireds: seq<bool>, rule: GuardRule, after: ResenderState, sent: bool)
    requires expireds != [] && s.pc == Running && (after, sent) == Iterate(s, wait, expireds[0], rule)
    ensures Ticks(s, wait, expireds, rule).0 == Ticks(after, wait, expireds[1..], rule).0
    ensures Ticks(s, wait, expireds, rule).1 == Ticks(after, wait, expireds[1..], rule).1 + (if sent then 1 else 0)
  {
  }

  /** `n` ticks of the clock. */
  function Timeouts(n: nat): (ts: seq<bool>)
    ensures |ts| == n && forall i :: 0 <= i < n ==> ts[i]
  {
    seq(n, _ => true)
  }

  lemma TimeoutsTail(n: nat)
    requires n > 0
    ensures Timeouts(n)[0] && Timeouts(n)[1..] == Timeouts(n - 1)
  {
  }

  /**
   * As written, a working resender with no options queued never leaves its loop: every
   * timeout sends one copy and counts down, past zero, whatever `Copies` was.
   */
  lemma {:induction false} TimeoutsNeverExhaustAsWritten(s: ResenderState, n: nat)
    requires s.pc == Running && s.isWorking && s.control == []
    requires n <= s.residue - Int32Min
    ensures Ticks(s, 0, Timeouts(n), AsWritten) == (s.(residue := s.residue - n), n)
    decreases n
  {
    if n == 0 {
      assert s.(residue := s.residue - 0) == s;
    } else {
      TimeoutsTail(n);
      var s1 := s.(residue := s.residue - 1);
      assert Iterate(s, 0, true, AsWritten) == (s1, true);
      TimeoutsNeverExhaustAsWritten(s1, n - 1);
      assert s1.(residue := s1.residue - (n - 1)) == s.(residue := s.residue - n);
      assert Ticks(s, 0, Timeouts(n), AsWritten) == (s1.(residue := s1.residue - (n - 1)), (n - 1) + 1);
    }
  }

  /** The input that shows it: three copies requested, a fourth timeout sends a fourth copy. */
  lemma AsWrittenOutlivesCopies()
    ensures var (t, sent) := Ticks(Launched(Idle(), 3), 0, Timeouts(4), AsWritten);
      sent == 4 && t.pc == Running && t.isWorking
  {
    TimeoutsNeverExhaustAsWritten(Launched(Idle(), 3), 4);
  }

  /** With the intended condition, a positive count yields exactly that many copies, then the loop ends. */
  lemma {:induction false} IntendedSendsExactlyCopies(s: ResenderState, n: nat)
    requires s.pc == Running && s.isWorking && s.control == []
    requires 0 < s.residue <= n
    ensures Ticks(s, 0, Timeouts(n), Intended) == (s.(residue := 0, pc := Finished), s.residue)
    decreases n
  {
    TimeoutsTail(n);
    var s1 := Iterate(s, 0, true, Intended).0;
    if s.residue == 1 {
      assert s1 == s.(residue := 0, pc := Finished);
    } else {
      assert s1 == s.(residue := s.residue - 1);
      IntendedSendsExactlyCopies(s1, n - 1);
    }
  }

  /** With the intended condition, a count of zero means "until stopped": every timeout sends. */
  lemma {:induction false} IntendedZeroCopiesRunsUntilStopped(s: ResenderState, n: nat)
    requires s.pc == Running && s.isWorking && s.control == []
    requires s.residue <= 0 && n < s.residue - Int32Min
    ensures Ticks(s, 0, Timeouts(n), Intended) == (s.(residue := s.residue - n), n)
    decreases n
  {
    if n == 0 {
      assert s.(residue := s.residue - 0) == s;
    } else {
      TimeoutsTail(n);
      var s1 := Iterate(s, 0, true, Intended).0;
      assert s1 == s.(residue := s.residue - 1);
      IntendedZeroCopiesRunsUntilStopped(s1, n - 1);
    }
  }

  /**
   * With the intended condition, a resender launched with a count of zero sends a copy on
   * every timeout until it is stopped.
   */
  lemma IntendedZeroCopiesFromLaunch(s: ResenderState, n: nat)
    requires s.control == [] && n < 0 - Int32Min
    ensures Ticks(Launched(s, 0), 0, Timeouts(n), Intended) == (Launched(s, 0).(residue := 0 - n as int), n)
  {
    IntendedZeroCopiesRunsUntilStopped(Launched(s, 0), n);
  }

  /**
   * A stop option ends the loop with the intended condition; as written it does so unless
   * the decremented count is exactly 0, in which case the loop runs on with `IsWorking` false.
   */
  lemma StopOptionEndsLoop(s: ResenderState, wait: int, expired: bool)
    requires s.pc == Running && s.control != [] && IsStopOption(s.control[0]) && wait >= -1
    ensures Iterate(s, wait, expired, Intended).0.pc == Finished
    ensures Iterate(s, wait, expired, AsWritten).0.pc == Finished <==> Decrement(s.residue) != 0
    ensures !Iterate(s, wait, expired, AsWritten).0.isWorking
  {
  }

  /**
   * Options are used in the order `Control` queued them: over any run, the options left
   * are a suffix of the queue, and the copies sent are at most one per tick.
   */
  lemma OptionsTakenInArrivalOrder(s: ResenderState, extra: seq<TimeDelayOptions>, wait: int, rule: GuardRule)
    requires s.pc == Running && s.control != [] && wait >= -1
    ensures Iterate(s.(control := s.control + extra), wait, false, rule).0.control == s.control[1..] + extra
    ensures Iterate(s.(control := s.control + extra), wait, false, rule).1 == IsSendOption(s.control[0])
  {
    assert (s.control + extra)[1..] == s.control[1..] + extra;
  }

  /**
   * Over any run the options left are a suffix of those queued at its start: none is
   * skipped past, reordered or duplicated.
   */
  lemma {:induction false} TicksLeaveSuffixOfOptions(s: ResenderState, wait: int, expireds: seq<bool>, rule: GuardRule)
    ensures var t := Ticks(s, wait, expireds, rule).0;
      |t.control| <= |s.control| && t.control == s.control[|s.control| - |t.control|..]
    decreases |expireds|
  {
    if expireds != [] && s.pc == Running {
      var s1 := Iterate(s, wait, expireds[0], rule).0;
      IterateTakesAtMostOneOption(s, wait, expireds[0], rule);
      TicksLeaveSuffixOfOptions(s1, wait, expireds[1..], rule);
      var t := Ticks(s1, wait, expireds[1..], rule).0;
      assert Ticks(s, wait, expireds, rule).0 == t;
      if s1.control != s.control {
        assert s.control[|s.control| - |t.control|..] == s1.control[|s1.control| - |t.control|..];
      }
    }
  }

  /** One iteration leaves the pending options alone or takes the first. */
  lemma IterateTakesAtMostOneOption(s: ResenderState, wait: int, expired: bool, rule: GuardRule)
    requires s.pc == Running
    ensures var c := Iterate(s, wait, expired, rule).0.control;
      c == s.control || (s.control != [] && c == s.control[1..])
  {
  }

  /** The target mailbox after `n` copies of `msg` at `p`. */
  function SentCopies(q: MailboxState, msg: Message, p: MessagePriority, n: nat): (r: MailboxState)
    requires Inv(q)
    ensures Inv(r) && r.parked == q.parked && r.leaked == q.leaked
    ensures n > 0 && q.waiting == 0 ==> r.waiting == 0
  {
    if n == 0 then q else EnqueueAt(SentCopies(q, msg, p, n - 1), msg, p)
  }

  /** `n` copies of `msg`. */
  function Repeat(msg: Message, n: nat): (ms: seq<Message>)
    ensures |ms| == n && forall i :: 0 <= i < n ==> ms[i] == msg
  {
    if n == 0 then [] else Repeat(msg, n - 1) + [msg]
  }

  lemma RepeatSnoc(msg: Message, n: nat)
    requires n > 0
    ensures multiset(Repeat(msg, n)) == multiset(Repeat(msg, n - 1)) + multiset{msg}
  {
    assert Repeat(msg, n) == Repeat(msg, n - 1) + [msg];
  }

  /** `n` copies sent to a mailbox add exactly `n` times `msg` to what it holds. */
  lemma {:induction false} SentCopiesAddsCopies(q: MailboxState, msg: Message, p: MessagePriority, n: nat)
    requires Inv(q)
    ensures multiset(Backlog(SentCopies(q, msg, p, n))) == multiset(Backlog(q)) + multiset(Repeat(msg, n))
    decreases n
  {
    if n > 0 {
      SentCopiesAddsCopies(q, msg, p, n - 1);
      SentOneMoreCopy(SentCopies(q, msg, p, n - 1), msg, p);
      RepeatSnoc(msg, n);
    }
  }

  lemma SentOneMoreCopy(q: MailboxState, msg: Message, p: MessagePriority)
    requires Inv(q)
    ensures multiset(Backlog(EnqueueAt(q, msg, p))) == multiset(Backlog(q)) + multiset{msg}
  {
    EnqueueAddsExactlyOne(q, msg, Tier(p));
  }

  class TimeDelaySendMessage {
    const enqueue: MessageEnqueue?
    const msg: Message
    const priority: MessagePriority
    var copies: Int32
    var isWorking: bool
    var millisecondToWait: Int32
    var residueCopies: Int32
    var controlQueue: seq<TimeDelayOptions>
    var loop: LoopPc

    ghost function State(): ResenderState
      reads this
    {
      ResenderState(isWorking, residueCopies, controlQueue, loop)
    }

    /** The handle's mailbox, when there is one. */
    ghost function TargetState(): MailboxState
      requires enqueue != null
      reads enqueue.queue, enqueue.queue.buffers
    {
      enqueue.queue.State()
    }

    constructor (enqueue: MessageEnqueue?, msg: Message, millisecondToWait: Int32 := -1,
                 copies: Int32 := 0, priority: MessagePriority := Normal)
      ensures this.enqueue == enqueue && this.msg == msg && this.priority == priority
      ensures this.copies == copies && this.millisecondToWait == millisecondToWait
      ensures State() == Idle()
    {
      this.enqueue := enqueue;
      this.msg := msg;
      this.copies := copies;
      this.millisecondToWait := millisecondToWait;
      this.priority := priority;
      isWorking := false;
      residueCopies := 0;
      controlQueue := [];
      loop := NotLaunched;
    }

    /** `LaunchActor`: set `IsWorking`, load the count, and start the loop. */
    method LaunchActor()
      requires loop != Running
      modifies this`isWorking, this`residueCopies, this`loop
      ensures State() == Launched(old(State()), copies)
    {
      isWorking := true;
      residueCopies := copies;
      loop := Running;
    }

    /** `Control`: queue an option for the loop (the unbounded collection always accepts it). */
    method Control(options: TimeDelayOptions)
      modifies this`controlQueue
      ensures controlQueue == old(controlQueue) + [options]
    {
      controlQueue := controlQueue + [options];
    }

    /** One iteration of the loop, sending through the handle. */
    method Tick(expired: bool) returns (sent: bool)
      requires loop == Running
      requires enqueue != null ==> enqueue.queue.Valid()
      modifies this`isWorking, this`residueCopies, this`controlQueue, this`loop, Target(enqueue)
      ensures (State(), sent) == Iterate(old(State()), millisecondToWait, expired, AsWritten)
      ensures enqueue != null ==>
        && enqueue.queue.Valid()
        && TargetState() == if sent then EnqueueAt(old(TargetState()), msg, priority) else old(TargetState())
    {
      sent := Decide(expired);
      if sent {
        SendMessage(enqueue, msg, priority);
      }
    }

    /** The bookkeeping of one iteration: whether it sends, and the loop's new state. */
    method Decide(expired: bool) returns (sent: bool)
      requires loop == Running
      modifies this`isWorking, this`residueCopies, this`controlQueue, this`loop
      ensures (State(), sent) == Iterate(old(State()), millisecondToWait, expired, AsWritten)
    {
      if millisecondToWait < -1 {
        // TryTake rejects the timeout; the exception ends the task
        loop := Faulted;
        return false;
      }
      if controlQueue != [] {
        // an option was waiting: it decides this iteration
        var options := controlQueue[0];
        controlQueue := controlQueue[1..];
        sent := IsSendOption(options);
        if IsStopOption(options) {
          isWorking := false;
        }
      } else if millisecondToWait == 0 || (millisecondToWait > 0 && expired) {
        // the timeout is the schedule
        sent := true;
      } else {
        // still blocked in TryTake
        return false;
      }
      residueCopies := Decrement(residueCopies);
      loop := if isWorking || residueCopies == 0 then Running else Finished;
    }

    /** The loop driven by a series of clock flags, until they run out or the task leaves the loop. */
    /** One pass of `Run`'s loop: a `Tick`, counted, as one step of `Ticks` over the rest of the run. */
    method CountedTick(expireds: seq<bool>, i: nat, sends: nat, ghost start: MailboxState) returns (sends': nat)
      requires i < |expireds| && loop == Running
      requires enqueue != null ==>
        enqueue.queue.Valid() && Inv(start) && TargetState() == SentCopies(start, msg, priority, sends)
      modifies this`isWorking, this`residueCopies, this`controlQueue, this`loop, Target(enqueue)
      ensures enqueue != null ==>
        enqueue.queue.Valid() && TargetState() == SentCopies(start, msg, priority, sends')
      ensures sends <= sends'
      ensures Ticks(old(State()), millisecondToWait, expireds[i..], AsWritten).0
        == Ticks(State(), millisecondToWait, expireds[i + 1..], AsWritten).0
      ensures Ticks(old(State()), millisecondToWait, expireds[i..], AsWritten).1
        == sends' - sends + Ticks(State(), millisecondToWait, expireds[i + 1..], AsWritten).1
    {
      ghost var before := State();
      var sent := Tick(expireds[i]);
      assert expireds[i..][1..] == expireds[i + 1..];
      TicksStep(before, millisecondToWait, expireds[i..], AsWritten, State(), sent);
      sends' := if sent then sends + 1 else sends;
    }

    /** The loop: `Tick` once per clock flag while the task is in the loop. */
    method Run(expireds: seq<bool>) returns (sends: nat)
      requires enqueue != null ==> enqueue.queue.Valid()
      modifies this`isWorking, this`residueCopies, this`controlQueue, this`loop, Target(enqueue)
      ensures (State(), sends) == Ticks(old(State()), millisecondToWait, expireds, AsWritten)
      ensures enqueue != null ==>
        && enqueue.queue.Valid()
        && TargetState() == SentCopies(old(TargetState()), msg, priority, sends)
    {
      ghost var total := Ticks(State(), millisecondToWait, expireds, AsWritten);
      ghost var start := if enqueue != null then TargetState() else EmptyMailbox();
      sends := 0;
      var i := 0;
      while i < |expireds| && loop == Running
        invariant 0 <= i <= |expireds|
        invariant enqueue != null ==>
          && enqueue.queue.Valid() && Inv(start)
          && TargetState() == SentCopies(start, msg, priority, sends)
        invariant total.0 == Ticks(State(), millisecondToWait, expireds[i..], AsWritten).0
        invariant total.1 == sends + Ticks(State(), millisecondToWait, expireds[i..], AsWritten).1
      {
        sends := CountedTick(expireds, i, sends, start);
        i := i + 1;
      }
    }
  }
}
