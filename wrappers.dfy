/** Failure-carrying values used across the model: a lookup that may find nothing,
    and an operation that either returns a value or fails with the message the
    backend puts in its RuntimeException. */
module Wrappers {

  datatype Option<T> = None | Some(value: T)

  datatype Result<T> = Ok(value: T) | Err(message: string)

  /** How a request of the web client (`api.post`, `api.delete`) ends: it resolves, or it
      throws with the response's `error` field when the server sent one. */
  datatype RequestOutcome = Completed | Failed(serverError: Option<string>)

  /** `err.response?.data?.error || fallback`: the server's message unless it
      is missing or empty. */
  function ErrorText(serverError: Option<string>, fallback: string): (r: string)
    ensures serverError.Some? && serverError.value != "" ==> r == serverError.value
    ensures serverError.None? || serverError.value == "" ==> r == fallback
  {
    if serverError.Some? && serverError.value != "" then serverError.value else fallback
  }
}
