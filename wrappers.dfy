/** The C code uses NULL for absent strings; the model uses Option. */
module Wrappers {

  datatype Option<+T> = None | Some(value: T)

}
