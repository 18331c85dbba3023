/** Outcomes of the session store's operations: the exceptions the source raises become values. */
module Results {

  /** The failures the store can signal.
      - NotFound: a key is absent from an LRU dictionary (Python's KeyError escaping `pop` or `del`).
      - Expired: the session store's ExpirationError, raised when a session or a state is gone.
      - Unsupported: the TypeError of `check_concurrence` (a multi-process configuration). */
  datatype Error = NotFound | Expired | Unsupported

  datatype Option<T> = None | Some(value: T)

  /** The result of an operation that returns a value or raises. */
  datatype Result<T> = Ok(value: T) | Err(error: Error)

  /** The result of an operation that returns nothing or raises. */
  datatype Outcome = Pass | Fail(error: Error)
}
