/** A value that may be missing: used where the scripts divide by a
    quantity that can be zero and would otherwise produce no finite number. */
module Wrappers {

  datatype Option<+T> = None | Some(value: T)
}
