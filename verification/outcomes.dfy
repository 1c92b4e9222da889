/** Failure-carrying result types shared by the ledger, the rebalancer and
    the analytics. The backtester signals every failure by raising a Python
    exception; here each exception becomes an `Error` value. */
module Outcomes {

  /** The exceptions the modelled code raises, one case per distinct cause. */
  datatype Error =
    | LengthMismatch(required: nat, given: nat)  // ValueError "Length not match!"
    | OverAllocation                             // ValueError "... can not exceed 100%"
    | NotANumber                                 // ValueError from round(nan)
    | Overflow                                   // OverflowError from round(inf)
    | BadCompound                                // ValueError "Compound cycle should be ..."
    | MissingTimeIndex                           // TypeError/AttributeError on a None time index
    | ZeroDivision                               // ZeroDivisionError
    | IndexOutOfRange                            // IndexError
    | ShapeMismatch                              // numpy/pandas shape error
    | EmptyInput                                 // ValueError from np.vectorize on a size-0 array

  datatype Option<+T> = None | Some(value: T)

  /** A computation that either yields a value or raises before changing anything. */
  datatype Result<+T> = Ok(value: T) | Err(error: Error)

  /** A state-changing step: either it completes, or it raises and leaves
      behind whatever state had already been mutated when the exception
      was thrown. */
  datatype Outcome<+T> = Done(value: T) | Raised(error: Error, value: T)
}
