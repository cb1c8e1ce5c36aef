/** The optional value used wherever the modelled code returns `None` or may fail softly. */
module Wrappers {

  datatype Option<+T> = None | Some(value: T)
}
