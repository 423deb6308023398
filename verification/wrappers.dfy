/** Failure-carrying wrapper shared by the other modules. */
module Wrappers {

  /** An optional value: Swift's `T?`, or the outcome of a conditional cast (`as? T`). */
  datatype Option<+T> = None | Some(value: T)
}
