/** Failure-carrying datatypes shared by every module of the model. */
module Wrappers {

  /** A value that may be absent (Python's `None`). */
  datatype Option<+T> = None | Some(value: T)

  /** What went wrong where the source raises or exits. */
  datatype Error =
    | MissingField      // IndexError on `arr[k]` after `split('|')`
    | NotAnInteger      // ValueError raised by `int(...)`
    | Unbound           // a variable read before any line assigned it
    | TooFewRanked      // IndexError on the ranking list
    | MissingRoutes     // no routing file for a destination
    | LabelMismatch     // a file written for another destination or country
    | Lookup            // IndexError on `as_info[asn][0]` for an AS without a label

  datatype Result<+T> = Ok(value: T) | Err(error: Error) {
    predicate IsFailure() { Err? }

    function PropagateFailure<U>(): Result<U>
      requires Err?
    {
      Err(error)
    }

    function Extract(): T
      requires Ok?
    {
      value
    }
  }
}
