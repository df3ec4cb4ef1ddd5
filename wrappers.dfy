/** The optional value used for attributes, query results and URLs that may be absent. */
module Wrappers {

  datatype Option<+T> = None | Some(value: T)
}
