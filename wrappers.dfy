/** Failure-carrying results for the identity-number model.
    Every exception the library raises becomes an `Err`/`Fail` with the
    reason it was raised. */
module Wrappers {

  /** Why an operation was rejected. All kinds except `DateOverflow` are a
      `ValueError` in the library; `DateOverflow` is the `OverflowError` that
      date arithmetic raises outside the years 1..9999. */
  datatype Error =
    | OutOfRange          // the 11-digit value is outside the accepted interval
    | InvalidChecksum     // the last digit is not the computed check digit
    | InvalidDate         // year/month/day do not form a calendar date
    | CenturyOutOfRange   // century digit outside 1..8
    | YearOutOfRange      // year outside 1800..2199
    | SequenceOutOfRange  // sequence outside 0..999
    | DateOverflow        // date arithmetic left the years 1..9999

  datatype Option<+T> = None | Some(value: T)

  datatype Result<+T> = Ok(value: T) | Err(error: Error) {

    /** The outcome of an operation whose value is written back in place. */
    function Status(): (o: Outcome) {
      match this
      case Ok(_) => Pass
      case Err(e) => Fail(e)
    }

    /** The value on success, `default` on failure. */
    function GetOr(default: T): (v: T) {
      match this
      case Ok(v) => v
      case Err(_) => default
    }
  }

  datatype Outcome = Pass | Fail(error: Error)
}
