/** Optional values, standing in for the `(value, err)` pairs the Go code
    receives from its collaborators: `None` is the error return. */
module Wrappers {

  datatype Option<+T> = None | Some(value: T)
}
