/** An optional value: a DOM element or attribute that may be absent. */
module Wrappers {

  datatype Option<+T> = None | Some(value: T)
}
