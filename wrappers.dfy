/** Optional values: the model of a TypeScript field declared with `?` or a value that may be `null`. */
module Wrappers {

  datatype Option<+T> = None | Some(value: T)
}
