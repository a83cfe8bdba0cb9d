/**
 * The failure vocabulary of the task domain.
 *
 * Every validation failure in the domain layer is a Python `ValueError`
 * carrying a message; the model keeps the message text, since callers and
 * tests tell the failures apart by it.
 */
module Errors {

  datatype Error = ValueError(message: string)

  /** Absence that is not an error (a lookup that finds nothing). */
  datatype Option<+T> = None | Some(value: T)

  /** A value, or the error that would have been raised instead. */
  datatype Result<+T> = Ok(value: T) | Err(error: Error)

  /** The outcome of a command that returns nothing or raises. */
  datatype Outcome = Pass | Fail(error: Error)

  /** True when `prefix` is a prefix of `s` (used to state what messages begin with). */
  predicate StartsWith(s: string, prefix: string) {
    |prefix| <= |s| && s[..|prefix|] == prefix
  }
}
