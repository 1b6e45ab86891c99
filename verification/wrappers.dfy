/** The optional value used wherever the source returns `null`/`undefined`
    or a falsy result. */
module Wrappers {

  datatype Option<+T> = None | Some(value: T)
}
