/** How a check ends: normally, with the conformance signal, or with any other exception. */
module Errors {

  datatype Option<T> = None | Some(value: T)

  /**
   * The outcome of one check step. `Failed(args)` is a raised `PrecommitError` whose
   * exception arguments are `args` (a check that raises `PrecommitError(msg)` has
   * `args == [msg]`); `Crashed(error)` is any other exception, which nothing catches.
   */
  datatype StepResult = Passed | Failed(args: seq<string>) | Crashed(error: string)

  /** A value, or an exception other than `PrecommitError` raised while computing it. */
  datatype Result<T> = Ok(value: T) | Raised(error: string)

  /** The state of an artifact after a check, and how the check ended. */
  datatype Checked<S> = Checked(after: S, result: StepResult)
}
