/** The optional value used where the component holds `string | null`. */
module Wrappers {

  datatype Option<+T> = None | Some(value: T)
}
