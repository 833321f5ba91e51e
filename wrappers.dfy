/** Result shapes used throughout the model.

    `Result<T>` and `Outcome` stand for FluentResults' `Result<T>` and `Result`:
    a failure carries the messages of its errors, in order. `Completion<T>`
    separates a value that a call returns from an exception it throws, which
    the handlers do not catch. */
module Wrappers {

  datatype Option<+T> = None | Some(value: T)

  /** FluentResults' `Result<T>`: `Result.Ok(v)` or `Result.Fail(errors)`. */
  datatype Result<+T> = Ok(value: T) | Fail(errors: seq<string>)

  /** FluentResults' non-generic `Result`: `Result.Ok()` or `Result.Fail(errors)`. */
  datatype Outcome = Pass | Failed(errors: seq<string>)

  /** What a call does: returns a value, or throws an exception with a message. */
  datatype Completion<+T> = Returned(value: T) | Threw(message: string)
}
