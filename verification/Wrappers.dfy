/** The one failure-free wrapper type the models share: a value that may be absent. */
module Wrappers {

  datatype Option<+T> = None | Some(value: T)
}
