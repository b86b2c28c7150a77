/** The optional value `get_by_index` returns and the optional `head` of an empty array. */
module Wrappers {

  datatype Option<T> = None | Some(value: T)
}
