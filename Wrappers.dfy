/** Failure-carrying values shared by every module: optional values (JavaScript's
    `null`/`undefined` against a present value), the outcome of an upstream call, and
    the outcome of an async function that may reject. */
module Wrappers {

  datatype Option<+T> = None | Some(value: T)

  /** What an upstream call (HTTP fetch, file read) produced: a value, or a failure with
      its message. The model treats it as a nondeterministic input. */
  datatype Upstream<+T> = Ok(value: T) | Failed(message: string)

  /** How an async function settles: it resolves with a value or rejects with a message. */
  datatype Outcome<+T> = Resolved(value: T) | Rejected(message: string)
}
