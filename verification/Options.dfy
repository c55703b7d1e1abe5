/** Values used across the project: nil results and missing files, and a DNS message with
 * the one field the program looks at. */
module Options {
  datatype Option<+T> = None | Some(value: T)

  datatype Msg = Msg(rcode: int, body: string)
}
