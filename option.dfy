/** A value that may be absent (a missing title, an unparseable timestamp). */
module Optional {

  datatype Option<T> = None | Some(value: T)
}
