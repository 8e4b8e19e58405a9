/**
 * What the command channel and the telemetry channel share: the faults
 * the source raises, the life cycle of a receive thread, and the receive
 * step that turns one inbound datagram into the new contents of a
 * single-slot cache.
 */
module Channel {
  import opened Wrappers
  import opened Text

  /** The exceptions the modelled code raises. */
  datatype Fault =
    | IndexOutOfRange       // IndexError: `parts[1]` of a segment without ':'
    | NoneHasNoSplit        // AttributeError: `None.split(';')` before any telemetry arrived
    | UnsupportedOperand    // TypeError: arithmetic on telemetry strings or None
    | ThreadAlreadyStarted  // RuntimeError: a `Thread` object started a second time
    | ConnectFailed         // the exception `start` raises when the drone does not answer "ok"

  /**
   * A background receive thread: not yet started, looping, or gone. A
   * Python `Thread` can be started once; after its loop sees the stop flag
   * it has exited for good.
   */
  datatype ThreadPhase = NotStarted | Running | Exited

  /**
   * One datagram as the receive loop sees it: text that decodes as UTF-8,
   * or bytes whose decoding (or whose `recvfrom`) raised, which the loop
   * logs and skips.
   */
  datatype Datagram = Decoded(payload: string) | Undecodable

  /**
   * One pass of a receive loop over a slot: a decodable datagram replaces
   * the slot with its text less trailing CR/LF; an error leaves it alone.
   */
  function ReceiveStep(slot: Option<string>, d: Datagram): (r: Option<string>)
    ensures d.Undecodable? ==> r == slot
    ensures d.Decoded? ==> r.Some?
  {
    match d
    case Decoded(payload) => Some(StripLineEnd(payload))
    case Undecodable => slot
  }
}
