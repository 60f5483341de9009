/**
 * A value that may be absent. For the fields read as Options, JavaScript's
 * `undefined` and `null` behave alike and both read as None; the one field
 * where they differ, a confidence compared with `<`, has its own type.
 */
module Wrappers {

  datatype Option<+T> = None | Some(value: T)
}
