/**
 * The message contract (ActorFramework/Messages/Message.cs and StopActor.cs).
 *
 * A message is a unit of work run by an actor's worker. User messages are opaque:
 * they carry an identity and the `Error` their `DoWork` returns. The runtime's own
 * messages are modelled exactly: `Stop`, the terminal `LastAsk` marker and the
 * request/response `Ask`, which refers to a `ReplyMessage` object whose reply queue
 * the caller installs and the receiver fills. `Null` is a null reference, which
 * `SendMessage` enqueues like any other.
 */
module Messages {
  import opened Wrappers
  import opened Errors

  datatype Message =
    | Plain(id: nat, result: Error)
    | Stop
    | LastAsk
    | Ask(request: ReplyMessage)
    | Null

  /**
   * What running a message body yields: an `Error` value, an exception that escapes it,
   * or, for a null message, the null `Error` of the null-conditional call.
   */
  datatype Outcome = Returned(err: Error) | Threw | NoResult

  /**
   * `ReplyMessage<T>` with `T = int`. `answer` is what `DoCore(actor)` computes;
   * `replyQueue` is `None` while the reference is null, and otherwise the items of
   * the blocking collection, oldest first.
   */
  class ReplyMessage {
    const answer: int
    var replyQueue: Option<seq<int>>

    constructor (answer: int)
      ensures this.answer == answer && replyQueue == None
    {
      this.answer := answer;
      replyQueue := None;
    }

    /**
     * Deposits `DoCore`'s result into the reply queue and reports success. With no
     * reply queue installed the deposit dereferences null, and the exception escapes.
     */
    method DoWork() returns (o: Outcome)
      modifies this
      ensures old(replyQueue).None? ==> o == Threw && replyQueue == None
      ensures old(replyQueue).Some? ==>
        o == Returned(NoError()) && replyQueue == Some(old(replyQueue).value + [answer])
    {
      match replyQueue
      case None =>
        o := Threw;
      case Some(items) =>
        replyQueue := Some(items + [answer]);
        o := Returned(NoError());
    }
  }

  /** The objects running `m` may change: the request object of an ask, nothing else. */
  function RequestOf(m: Message): set<object>
  {
    if m.Ask? then {m.request} else {}
  }

  /** `LastAskMessage.DoWork`: a no-op that reports success. */
  function LastAskDoWork(): (e: Error)
    ensures !e.isError && e == NoError()
  {
    NoError()
  }
}
