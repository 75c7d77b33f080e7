/** A value that may be absent: a missing storage key, a failed parse. */
module Optional {

  datatype Option<+T> = None | Some(value: T)

}
