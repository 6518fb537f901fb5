/** The optional value used wherever the C code returns NULL or a "not found" marker. */
module Options {

  datatype Option<+T> = None | Some(value: T)

}
