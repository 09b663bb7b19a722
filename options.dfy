/** The usual optional value, used for JavaScript's `undefined`. */
module Options {

  datatype Option<+T> = None | Some(value: T)

}
