/** Option, Result and the exception kinds the debugger raises. */
module Wrappers {

  datatype Option<+T> = None | Some(value: T) {
    function GetOr(default: T): T {
      match this
      case Some(v) => v
      case None => default
    }
  }

  /** The exceptions that cross the core: `DebuggerException` is the operator-facing
      error kind, `ChannelException` carries an errno, `TypeError` and
      `RuntimeException` and `JsonException` are the engine's own throwables, and
      `EngineError` is PHP's base `Error`. */
  datatype Exception =
    | DebuggerException(message: string)
    | ChannelException(code: int)
    | TypeError(message: string)
    | RuntimeException(message: string)
    | JsonException(message: string)
    | EngineError(message: string)

  datatype Result<+T> = Ok(value: T) | Fail(error: Exception) {
    predicate IsFailure() {
      Fail?
    }

    function PropagateFailure<U>(): Result<U>
      requires Fail?
    {
      Fail(error)
    }

    function Extract(): T
      requires Ok?
    {
      value
    }
  }

  /** A result without a value, for operations that either complete or throw;
      `Pending` is an operation still waiting on the runtime when the scripted
      runtime answers run out. */
  datatype Outcome = Done | Raised(error: Exception) | Pending {
    predicate IsFailure() {
      !Done?
    }

    function PropagateFailure(): Outcome
      requires !Done?
    {
      this
    }
  }
}
