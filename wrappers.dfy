/** The optional value used for replies that may be missing (a GET of an absent key,
    a query that returns no row, a token that does not decode). */
module Wrappers {

  datatype Option<+T> = None | Some(value: T)
}
