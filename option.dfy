/** The usual optional value; `None` stands for a null pointer or a failed step. */
module Optional {
  datatype Option<T> = None | Some(value: T)
}
