/**
  Option and Result types used throughout the model: an absent value, and the
  outcome of an asynchronous handler that either resolves with a value or
  rejects with an error.
 */
module Wrappers {

  datatype Option<+T> = None | Some(value: T) {

    /** The carried value, or `default` when absent. */
    function GetOr(default: T): T {
      match this
      case Some(v) => v
      case None => default
    }
  }

  /**
    The settlement of an `async` handler: `Done` when its promise resolves,
    `Rejected` when it throws. `reason` is the message of the thrown `Error`,
    or `None` when something other than an `Error` was thrown.
   */
  datatype Result<+T> = Done(value: T) | Rejected(reason: Option<string>)
}
