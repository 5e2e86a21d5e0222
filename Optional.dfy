/** The optional value shared by the modules: `None` stands for Python's `None` or a missing binding. */
module Optional {
  datatype Option<T> = None | Some(value: T)
}
