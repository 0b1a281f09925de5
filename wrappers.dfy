/** Option and Result values for the pipeline's absent fields and raised faults. */
module Wrappers {

  datatype Option<+T> = None | Some(value: T)

  datatype Result<+T> = Success(value: T) | Failure
}
