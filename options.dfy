/** The optional value used for the session's entries and for search results. */
module Options {
  datatype Option<+T> = None | Some(value: T)
}
