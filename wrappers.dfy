/** The failures the core can run into, and a result type that carries one. */
module Wrappers {

  /** Why an operation gave no value. Each constructor stands for an exception the Python
      code raises (KeyError, IndexError, ValueError, or the Exception of an unsupported
      rank). */
  datatype Error =
    | MissingTime      // a record or plan without a 'time' entry
    | EmptyTime        // a 'time' entry with no samples
    | BadShape         // numpy refuses to concatenate or index an array of this shape
    | RankError        // a signal that is neither 1-D nor 2-D reaches interpolation
    | LengthMismatch   // np.interp with sample and value arrays of different lengths
    | ZohOutOfRange    // interp_zoh computes an index outside [-len(fp), len(fp)), or divides by zero
    | MissingKey       // a key the code reads is absent
    | NotOneDimensional // a 2-D signal reaches the emulator, whose trace is 1-D here
    | EmptyArray       // the first or last sample of an empty array is read

  datatype Result<T> = Ok(value: T) | Err(error: Error)

  /** A Python argument that may be None. */
  datatype Option<T> = None | Some(value: T)
}
