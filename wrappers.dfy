/** Optional values: JavaScript's `undefined` for an absent property or a failed `find`. */
module Wrappers {

  datatype Option<+T> = None | Some(value: T)
}
