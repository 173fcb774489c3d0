/** Failure-carrying wrappers shared by the whole model. Kotlin's nullable types
    become Option, and the exceptions the library throws become Error values. */
module Wrappers {

  datatype Option<+T> = None | Some(value: T) {
    function GetOr(default: T): T {
      match this
      case Some(v) => v
      case None => default
    }
  }

  /** The exceptions thrown by the modelled code, one constructor per exception class. */
  datatype Error =
    | IndexOutOfBounds                                              // Kotlin's StringIndexOutOfBounds / IndexOutOfBounds
    | NumberFormat(text: string)                                    // String.toInt() on a non-number
    | WrongMessageType(required: Option<string>, received: Option<string>)
    | CorruptedMessage(reason: string)
    | IllegalState(reason: string)                                  // SubPlan.parse on an unknown plan
    | NotConnected
    | PluginAlreadyExists(name: string)
    | NoTmiStateHandler
    | PatternParse(reason: string)
    | ScopeCancelled                                                // a launch in a cancelled coroutine scope never runs

  datatype Result<+T> = Ok(value: T) | Err(error: Error)

  /** The outcome of a call that returns Unit or throws. */
  datatype Outcome = Pass | Fail(error: Error)
}
