/** Failure-carrying values: `Option` for a field that may be absent, and
    `Result` for the `(ok, value, error)` triples that every step of the
    provisioning routine returns. */
module Wrappers {

  datatype Option<T> = None | Some(value: T) {

    /** The value, or `default` when absent (a dictionary lookup with a default). */
    function GetOr(default: T): T {
      if Some? then value else default
    }
  }

  datatype Result<T, E> = Ok(value: T) | Err(error: E)
}
