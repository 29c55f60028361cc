/** Java's nullable references: `None` stands for `null`. */
module Options {
  datatype Option<T> = None | Some(value: T)
}
