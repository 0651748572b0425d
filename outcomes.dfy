/** Failures of the scanning bot, named after the Python exceptions they model. */
module Outcomes {

  datatype Error =
    | EmptyPolygon        // IndexError: `polygon[0]` of an empty vertex list
    | EmptyBoundary       // ValueError: `min()` of an empty boundary
    | FloatSampleCount    // TypeError: `np.linspace` given a float sample count
    | NegativeSampleCount // ValueError: `np.linspace` given a negative sample count

  /** Either a value or the exception the Python code raises. */
  datatype Result<T> = Ok(value: T) | Err(error: Error)

  /** A Python local that may still be unbound. */
  datatype Option<T> = None | Some(value: T)
}
