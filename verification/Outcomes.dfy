/** Optional values, and the ways a request to the authorization server can fail. */
module Outcomes {

  datatype Option<+T> = None | Some(value: T)

  /** The exceptions the server raises.
    * `OAuthError` becomes a protocol response; `TokenError` is raised by the minter and the verifier
    * and is not an OAuth error; `KeyStoreError` stops the start-up; `StorageError` is a failed or
    * conflicting database write; `Unhandled` is a Python exception that no handler in the server names. */
  datatype Failure =
    | OAuthError(error: string, description: string, status: int)
    | TokenError(description: string)
    | KeyStoreError
    | StorageError
    | Unhandled

  datatype Result<+T> = Ok(value: T) | Err(failure: Failure) {
    predicate IsFailure() {
      Err?
    }

    function PropagateFailure<U>(): Result<U>
      requires Err?
    {
      Err(failure)
    }

    function Extract(): T
      requires Ok?
    {
      value
    }
  }

  /** Refused authentication, whatever the reason, and a principal that may not act, read alike. */
  const INVALID_CLIENT := OAuthError("invalid_client", "client authentication failed", 401)

  function Need(condition: bool, failure: Failure): Result<()> {
    if condition then Ok(()) else Err(failure)
  }
}
