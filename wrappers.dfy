/** A value that may be missing: a sensor reading that failed, a tone that is not sounding. */
module Wrappers {

  datatype Option<+T> = None | Some(value: T)
}
