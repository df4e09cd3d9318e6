/** The crate's error type. A protocol error's message text is reduced to its reason. */
module Errors {

  datatype Reason =
    | Truncated             // fewer bytes left than the next item needs
    | StructTooSmall        // a struct chunk declares less than its header and struct
    | LeafTooSmall          // a leaf chunk declares less than its own header
    | LocalPortChained      // the embedded local port claims a successor
    | NoChassis             // a neighbor port without a chassis
    | NotifiedPortChained   // a notified port claims a successor
    | LayoutMismatch        // bytes remain after a hardware decode
    | OverCap               // a frame announces more than the message cap

  datatype IoKind = UnexpectedEof | OtherIo

  datatype Error =
    | Io(kind: IoKind)
    | UnexpectedMessageType(expected: nat, got: nat)
    | RequestRejected
    | Protocol(reason: Reason)

  datatype Result<+T> = Ok(value: T) | Err(error: Error) {
    predicate IsFailure() {
      Err?
    }

    function PropagateFailure<U>(): Result<U>
      requires Err?
    {
      Err(error)
    }

    function Extract(): T
      requires Ok?
    {
      value
    }
  }

  datatype Option<+T> = None | Some(value: T)
}
