/** Option and Result values standing for Kotlin's nullable types and thrown exceptions. */
module Wrappers {

  datatype Option<+T> = None | Some(value: T)

  /** The outcome of a computation that may throw; `Threw` carries the exception's message,
      itself nullable as `Throwable.message` is. */
  datatype Attempt<+T> = Returned(value: T) | Threw(message: Option<string>)
}
