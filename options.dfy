/** Python's `None`-or-value, as used for the optional fields and the
    "not found" results throughout the model. */
module Options {

  datatype Option<+T> = None | Some(value: T)
}
