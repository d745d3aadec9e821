/** A value that may be absent: null, undefined, or the lack of an answer. */
module Options {
  datatype Option<T> = None | Some(value: T)
}
