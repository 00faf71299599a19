/** Optional values: Kotlin's nullable types and Java's thrown parse errors
    are both modelled as an Option. */
module Wrappers {

  datatype Option<+T> = None | Some(value: T)
}
