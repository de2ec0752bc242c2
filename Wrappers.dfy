/** Option and Outcome: the absent value and the success-or-error result of a call. */
module Wrappers {

  /** A value that may be absent (a TypeScript `undefined` or `null`). */
  datatype Option<+T> = None | Some(value: T)

  /** The settlement of a promise that carries no value: it resolves, or it rejects
      with an error whose message may be empty. */
  datatype Outcome = Pass | Fail(message: string)
}
