/** Failure-carrying results for the operations that raise in the original program. */
module Results {

  /** The exceptions the modelled code raises, by cause. */
  datatype Failure =
    | NotTrained                   // "Model must be trained before prediction" / "Call fit() first"
    | NoFeaturesSelected           // fit without a feature list given or stored
    | IndexOutOfRange(index: int)  // numpy fancy indexing with an index outside [-d, d)
    | LengthMismatch               // paired label sequences of different lengths
    | NotBinaryMatrix              // the confusion matrix is not 2x2, so the 4-way unpack fails
    | NegativeSampleSize           // np.random.choice asked for a negative number of draws
    | SampleLargerThanPopulation   // np.random.choice without replacement asked for too many
    | MissingField(name: string)   // a dict lookup of an absent key
    | NotANumber(name: string)     // a numeric conversion of a non-numeric value

  datatype Option<+T> = None | Some(value: T)

  datatype Result<+T> = Ok(value: T) | Err(failure: Failure) {
    predicate IsFailure() {
      Err?
    }

    function PropagateFailure<U>(): Result<U>
      requires Err?
    {
      Err(failure)
    }

    function Extract(): T
      requires Ok?
    {
      value
    }
  }
}
