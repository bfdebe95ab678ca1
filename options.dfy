/** An optional value: what a lookup or a parse yields when it may fail. */
module Options {

  datatype Option<+T> = None | Some(value: T)

}
