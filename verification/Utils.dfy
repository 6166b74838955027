/** Definitions that every module may use. */
module Utils {

  datatype Option<+T> = None | Some(value: T)
}
