/** Option and Result values. `None` stands for a C# `null`; `Err`/`Fail` stand for
    an exception that the modelled code throws or lets propagate. */
module Wrappers {

  datatype Option<+T> = None | Some(value: T) {
    /** The value, or `default` when there is none (C#'s `??`). */
    function GetOr(default: T): T {
      match this
      case Some(v) => v
      case None => default
    }
  }

  /** The result of an operation that either returns a value or throws. */
  datatype Result<+T, +E> = Ok(value: T) | Err(error: E)

  /** The result of an operation that returns nothing or throws. */
  datatype Outcome<+E> = Pass | Fail(error: E)
}

/** The exceptions the modelled operations throw, by .NET type or service answer. */
module Exceptions {
  datatype Error =
    | NotFound            // the service answered 404 for a blob
    | ContainerNotFound   // the service answered 404 for a container
    | InvalidBlockList    // a listed block id is neither uncommitted nor committed
    | NullReference       // a member was called on a null reference
    | ArgumentNull        // a Sitecore argument assertion failed
    | ArgumentOutOfRange  // a .NET range check failed
    | InvalidOperation    // a provider was initialised twice
    | ContainerBeingDeletedConflict  // the service answered 409 ContainerBeingDeleted
}
