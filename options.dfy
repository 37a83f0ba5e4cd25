/** An optional value: `None` stands for Python's `None` and for a lookup that raises. */
module Options {

  datatype Option<+T> = None | Some(value: T)
}
