/** The result of an operation that the checked (non-optimized) build guards
    with a run-time test that ends the program when it fails. */
module Outcome {

  datatype Checked<T> = Ok(value: T) | Aborted
}
