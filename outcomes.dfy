/** Outcomes of the modelled operations: a value, or the Python exception the
    original code raises on that path. */
module Outcomes {

  /** The exceptions the evaluator and the syllable detector can raise, plus
      OutOfDraws, which the model uses when the supplied stream of random
      variates ends before the code has drawn all it needs. */
  datatype Error =
    | IndexError   // indexing an empty list or string, random.choice([])
    | KeyError     // a grammar category that is not in the table
    | ValueError   // random.randint on an empty range, math.log of a value <= 0
    | TypeError    // unpacking None
    | OutOfDraws   // the random stream is exhausted

  datatype Result<+T> = Ok(value: T) | Err(error: Error)
}
