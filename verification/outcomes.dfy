/** Failure-carrying values shared by the repositories and services.

    The services signal failure by throwing an application error that carries
    a message and, sometimes, an explicit HTTP status. Here an error is a value,
    and every operation that may touch a store also reports the store as it is
    after the call, whether the call succeeded or not.
 */
module Outcomes {

  datatype Option<+T> = None | Some(value: T)

  /** An application error: its message, and the status when the thrower gave one. */
  datatype AppError = AppError(message: string, status: Option<nat>)

  datatype Result<+T> = Ok(value: T) | Err(error: AppError)

  /** The outcome of a call together with the state it leaves behind. */
  datatype Step<+T, +S> = Step(result: Result<T>, state: S)

}
