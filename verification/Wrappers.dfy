/** Optional values, and the results of operations that may raise. */
module Wrappers {
  datatype Maybe<T> = Absent | Given(value: T)

  datatype Outcome<T> = Done(value: T) | Raised
}
