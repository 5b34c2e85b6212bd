/** The optional value the service returns where the source returns `null`/`undefined`. */
module Wrappers {

  datatype Option<+T> = None | Some(value: T)

}
