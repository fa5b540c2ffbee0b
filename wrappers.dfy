/** Optional values: a value that may be absent (JavaScript `null`/`undefined`,
    a failed network response). */
module Wrappers {

  datatype Option<+T> = None | Some(value: T)
}
