/** The usual optional-value wrapper, for Python's `None` and `dict.get`. */
module Optional {

  datatype Option<+T> = None | Some(value: T)
}
