/** Success/failure results standing in for the exceptions the calculator raises. */
module Wrappers {

  datatype Result<+T, +E> = Success(value: T) | Failure(error: E)
}
