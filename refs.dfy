/** Java references that may be null. */
module Refs {

  /** A value of a Java reference type: either `null` or a reference to a value. */
  datatype Nullable<+T> = Null | Ref(value: T)
}
