/** Result and option types shared by the models. */
module Wrappers {

  datatype Option<+T> = None | Some(value: T)

  datatype Result<+T, +E> = Success(value: T) | Failure(error: E)

  /** How a step of a protocol ends for the process that issued it.  A step that
      raised or crashed may still have taken effect on durable state. */
  datatype Outcome<+E> = Ok | Raised(error: E) | Crashed
}
