/** Optional values, used for JavaScript's `undefined`/`null` and for absent request fields. */
module Wrappers {

  datatype Option<+T> = None | Some(value: T)
}
