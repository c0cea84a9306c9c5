/** An optional value: the model's stand-in for JavaScript's `undefined` /
    Python's `None`, and for "no result" in general. */
module Options {

  datatype Option<+T> = None | Some(value: T)
}
