/** Optional values: the model's stand-in for the null pointers of the C code. */
module Wrappers {

  datatype Option<+T> = None | Some(value: T)

}
