/** Failure-compatible result types shared by every module of the model.
    The C++ and Python code signals failures by throwing; each thrown
    exception kind becomes one constructor of Error. */
module Wrappers {

  datatype Option<T> = None | Some(value: T)

  /** The exception kinds the modelled code throws or its tests expect. */
  datatype Error =
    | InvalidArgument(message: string)   // std::invalid_argument
    | RuntimeError(message: string)      // std::runtime_error
    | OutOfRange                         // std::out_of_range (missing key in a history layer)
    | KeyError                           // Python KeyError (registry miss)
    | ValueError                         // Python ValueError (coordinate outside a region)
    | ChunkDoesNotExist                  // amulet.core.chunk.ChunkDoesNotExist
    | IdCollision                        // an id or name already registered to a different counterpart

  datatype Result<T> = Ok(value: T) | Err(error: Error)

  /** The result of an operation that returns nothing but may throw. */
  datatype Outcome = Pass | Fail(error: Error)
}
