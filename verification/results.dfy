/** Optional values and the failure outcome shared by the whole model.
    Every exception the statistics script can raise ends the run, so one
    `Result` type carries the kind of failure up to the caller. */
module Results {

  datatype Option<+T> = None | Some(value: T) {
    predicate IsFailure() { None? }

    function PropagateFailure<U>(): Option<U>
      requires None?
    {
      None
    }

    function Extract(): T
      requires Some?
    {
      value
    }
  }

  /** The exceptions the modelled code raises; none of them is caught. */
  datatype Failure =
    | MissingTimestamp     // strptime(None, ...) raises TypeError
    | BadTimestamp         // neither timestamp format matches: ValueError
    | UserIsNull           // `from.user` is JSON null: AttributeError
    | BadRetryAfter        // int() rejects the Retry-After header: ValueError
    | NegativeRetryAfter   // time.sleep of a negative duration: ValueError
    | SleepOverflow        // time.sleep of more seconds than its clock holds: OverflowError
    | MissingKey           // team['id'], ch['id'] or ch['displayName'] absent: KeyError
    | DateOutOfRange       // a timedelta subtraction below year 1: OverflowError
    | NoTotalColumn        // sort_values on a frame without rows: KeyError

  datatype Result<+T> = Ok(value: T) | Err(error: Failure) {
    predicate IsFailure() { Err? }

    function PropagateFailure<U>(): Result<U>
      requires Err?
    {
      Err(error)
    }

    function Extract(): T
      requires Ok?
    {
      value
    }
  }
}
