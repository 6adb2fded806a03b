/** The frames one connection's writer hands to its WebSocket. */
module Frames {
  import opened Wrappers
  import opened Bytes

  /** A terminal id, as the UTF-8 bytes the wire carries. */
  type Id = seq<byte>

  /**
    The JSON messages the delivery protocol distinguishes. `staleFences` is no part of the message sent: it
    records how many replay notices of the terminal were queued when the attach began.
  */
  datatype Message =
    | AttachReply(id: Id, snapshot: Option<nat>, staleFences: nat)
    | ReplayRequired(id: Id, sequence: nat)
    | Other

  /** Binary terminal output, or a JSON text of `size` bytes. */
  datatype Payload = Binary(data: seq<byte>) | Text(message: Message, size: nat)

  datatype OutboundFrame = OutboundFrame(
    payload: Payload,
    terminalId: Option<Id>,
    terminalSequence: Option<nat>)
  {
    function Size(): nat {
      match payload
      case Binary(data) => |data|
      case Text(_, size) => size
    }

    /** Terminal output of `id` at or before `sequence`: what a snapshot already covers. */
    predicate CoveredBy(id: Id, sequence: nat) {
      && terminalId == Some(id)
      && terminalSequence.Some?
      && terminalSequence.value <= sequence
    }
  }

  function TextFrame(message: Message, size: nat): OutboundFrame {
    OutboundFrame(Text(message, size), None, None)
  }

  function TerminalOutput(id: Id, sequence: nat, data: seq<byte>): OutboundFrame {
    OutboundFrame(Binary(data), Some(id), Some(sequence))
  }
}
