/**
 * The tagged result of every message's work (ActorFramework/Error.cs).
 * An `Error` is a value: success or failure, a numeric code and a text.
 */
module Errors {

  datatype Error = Error(isError: bool, code: int, message: string)

  /** `new Error()`: a success value with code 0 and an empty text. */
  function Default(): (e: Error)
    ensures !e.isError && e.code == 0 && e.message == ""
  {
    Error(false, 0, "")
  }

  /** `new Error(code, message)`: always a failure carrying exactly that code and text. */
  function Failure(code: int, message: string): (e: Error)
    ensures e.isError && e.code == code && e.message == message
  {
    Error(true, code, message)
  }

  /** Wraps a fault caught while running a message body; its code is fixed at -2. */
  function CatchError(message: string): (e: Error)
    ensures e.isError && e.code == -2 && e.message == message
  {
    Failure(-2, message)
  }

  /** The shared success sentinel: a default error with the failure flag cleared. */
  function NoError(): (e: Error)
    ensures !e.isError && e == Default()
  {
    Default().(isError := false)
  }

  /** The text carried by `InvalidMessage` ("this message is not one this actor can run"). */
  const InvalidMessageText: string := "该消息不属于本Actor可执行的消息"

  /** Signals a message the receiving actor does not support; code -1. */
  function InvalidMessage(): (e: Error)
    ensures e.isError && e.code == -1 && e.message == InvalidMessageText
  {
    Failure(-1, InvalidMessageText)
  }

  /** A failure is determined by its code and text: rebuilding it with the two-argument constructor gives it back. */
  lemma FailureRoundTrip(e: Error)
    requires e.isError
    ensures Failure(e.code, e.message) == e
  {
  }

  /** The three sentinels are pairwise distinguishable, and only `NoError` is a success. */
  lemma SentinelsDistinct(m: string)
    ensures NoError() != InvalidMessage() && NoError() != CatchError(m)
    ensures CatchError(m) != InvalidMessage()
  {
  }
}
