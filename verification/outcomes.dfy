/** Small wrapper types shared by the task manager and the task input. */
module Outcomes {

  /** An optional value: the task input either dispatches one action or none. */
  datatype Option<+T> = None | Some(value: T)

  /** The abstract result of one network round-trip: either the response was
      ok and carried `payload`, or the request failed (transport error or a
      non-ok HTTP status; the handlers treat both alike). */
  datatype Outcome<+T> = Ok(payload: T) | Fail
}
