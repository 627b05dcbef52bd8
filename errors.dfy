/** Failures that abort a report run, and the result type that carries them.
    In the script each one is an exception that nothing below the driver
    catches; it propagates to the driver's catch-all handler, which ends the
    run without a report. Here they are explicit values. */
module Errors {

  datatype Failure =
    /** The email id is not known to the API: its detail response has no statistics. */
    | UnknownEmail(emailId: int)
    /** The email's statistics lack one of the five counters the row needs. */
    | MissingStatistic(emailId: int, stat: string)
    /** The variant at this position of the email's variant list has zero
        recipients, so its open ratio divides by zero. */
    | DivisionByZero(emailId: int, variant: nat)

  datatype Result<+T> = Ok(value: T) | Err(error: Failure)
}
