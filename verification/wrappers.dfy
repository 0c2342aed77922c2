/** Failure-carrying results used for the configuration errors of the simulation. */
module Wrappers {

  datatype Result<+R, +E> = Success(value: R) | Failure(error: E)
}
