/** Option and outcome types shared by every module of the model. */
module Wrappers {

  /** A value that may be absent. Used for JavaScript's `undefined` and for
      "no match" results. */
  datatype Option<+T> = None | Some(value: T)

  /** The result of a computation that may throw. `Thrown` stands for any
      exception the source lets escape: a TypeError raised by reading a
      property of `null`, or a RangeError when the call stack is exhausted. */
  datatype Outcome<+T> = Done(value: T) | Thrown
}
