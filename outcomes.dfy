/** The failure categories of the calendar and the result type that carries them in place
    of Java's exceptions. */
module Outcomes {
  datatype Error =
    | InvalidDate       // DateTimeException: a field outside its range, an impossible leap day
    | InvalidEra        // an Era that is not a ModernDigitalEra
    | UnsupportedField  // DateTimeException from the range table: a field shorter than a day
    | InvalidFormat     // IllegalArgumentException from the formatter

  datatype Result<T> = Ok(value: T) | Err(error: Error)

  datatype Outcome = Pass | Fail(error: Error)
}
