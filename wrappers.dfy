/** The optional value used where the Kotlin code returns a nullable (`T?`). */
module Wrappers {

  datatype Option<+T> = None | Some(value: T)
}
