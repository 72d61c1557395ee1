/** Failure-carrying results shared by the components of the grid/shape model,
    and the exceptions the modelled Python code can raise. */
module Wrappers {

  datatype Option<+T> = None | Some(value: T)

  /** The exceptions the modelled code raises, by the Python exception class
      that would surface. */
  datatype Error =
    | ZeroDivision   // float division by zero (a zero-area origin, a one-point axis)
    | IndexOutOfRange // indexing [0] / [-1] of an empty coordinate index
    | ZeroStep       // numpy.arange with a step of 0
    | MixedDtypes    // the homogeneous-dtype assertion of regrid
    | NotAGeometry   // a value that is not a shape handed to the spatial index

  datatype Result<+T> = Ok(value: T) | Err(error: Error) {
    predicate IsFailure() { Err? }

    function PropagateFailure<U>(): Result<U>
      requires Err?
    {
      Err(error)
    }

    function Extract(): T
      requires Ok?
    {
      value
    }
  }
}
