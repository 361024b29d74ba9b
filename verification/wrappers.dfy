/** Small failure-carrying datatypes shared by the converter model. */
module Wrappers {

  /** An optional value: an index that may not exist, a fault that may not happen. */
  datatype Option<+T> = None | Some(value: T)

  /** The outcome of a step that may throw: `Failed` stands for an exception
      that escapes the step (its message is not modelled). */
  datatype Outcome<+T> = Ok(value: T) | Failed
}
