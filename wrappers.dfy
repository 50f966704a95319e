/** Option and Result, the failure-carrying values the model uses in place of
    Python's `None` and raised exceptions. */
module Wrappers {

  datatype Option<+T> = None | Some(value: T) {
    function GetOr(default: T): T {
      match this
      case Some(v) => v
      case None => default
    }
  }

  datatype Result<+R, +E> = Success(value: R) | Failure(error: E)

  /** A result without a value: the outcome of an operation run for its effect. */
  datatype Outcome<+E> = Pass | Fail(error: E)
}

/** The exceptions the client raises, one constructor per cause. */
module Errors {

  datatype Error =
    | KeyError(key: string)            // a required payload key is missing
    | DateValueError(date: string)     // the date does not parse as `%Y-%m-%d %H:%M:%S%z`
    | NotImplementedError              // content fetch without payload and without handler
    | AttributeError                   // attachment call on a message that has no handler
    | DomainNotAllowed(domain: string) // ValueError from the domain setter
    | UnpackError(parts: nat)          // ValueError: the address is not `user@domain`
    | ReadMessageError(id: int)        // ValueError: the read reply is not JSON
    | MessageListError                 // ValueError: the message list reply is not JSON
    | HttpError(status: int)           // the service answered with an error status
}
