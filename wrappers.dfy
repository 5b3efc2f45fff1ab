/** The optional value used for a signed-in user, a query parameter and a parsed URL. */
module Wrappers {

  datatype Option<+T> = None | Some(value: T)

}
