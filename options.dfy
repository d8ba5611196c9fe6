/** The optional value used wherever the scripts read `null`, `undefined` or `NaN`. */
module Options {

  datatype Option<+T> = None | Some(value: T)
}
