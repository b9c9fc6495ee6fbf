/** The optional value used for query results and request fields that may be absent. */
module Wrappers {

  /** `None` stands for Python's `None`: a missing key or an empty query result. */
  datatype Option<T> = None | Some(value: T)
}
