/** Values that may be absent: a request body that is missing or does not
    parse, a key that is not present, a parse that fails. */
module Optional {
  datatype Option<+T> = None | Some(value: T)
}
