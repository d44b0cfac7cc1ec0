/** Optional values: a JavaScript `null`/`undefined` field, or a missing map entry. */
module Wrappers {

  datatype Option<+T> = None | Some(value: T)
}
