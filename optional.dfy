/** The value-or-absent type used wherever the program uses None. */
module Optional {

  datatype Option<+T> = None | Some(value: T)
}
