/** An optional value: a Ruby `nil` where the helpers allow one. */
module Options {

  datatype Option<+T> = None | Some(value: T)
}
