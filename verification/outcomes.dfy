/** What a storage request can come back with: the stored value of a key,
    which may never have been written, and whether the request succeeded. */
module Outcomes {

  /** The value under a storage key: `Missing` when `getItem` returns
      `null`, `Present` when something was written. Also used for a
      record's optional `notes`. */
  datatype Maybe<T> = Missing | Present(value: T) {

    /** The stored value, or `fallback` when the key is missing. */
    function ValueOr(fallback: T): T {
      if Present? then value else fallback
    }
  }

  /** Whether one asynchronous storage request succeeded or threw. */
  datatype Outcome = Ok | Failed
}
