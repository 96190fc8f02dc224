/** Failure-carrying datatypes shared by every module of the model. */
module Wrappers {

  datatype Option<+T> = None | Some(value: T)

  /** The Python exceptions the modelled code lets escape. */
  datatype Error =
    | KeyError           // a missing dictionary key or header
    | TypeError          // arithmetic on None
    | ZeroDivisionError  // `x % 0`
    | RequestFailed      // an exception raised by the HTTP client
    | ValueError         // `json.loads` on a body that is not JSON

  datatype Result<+T> = Success(value: T) | Failure(error: Error)

  /** How a worker loop that talks to the gateway ends, given a finite list
      of gateway answers: it finishes, an exception escapes, or it is still
      waiting for a further answer when the list runs out. */
  datatype LoopEnd<+T> = Done(value: T) | Crashed(error: Error) | Waiting
}
