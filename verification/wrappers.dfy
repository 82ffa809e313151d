/** Optional values: a query parameter that failed to parse, a request body
    that failed to decode, a row that is not in the table. */
module Wrappers {

  datatype Option<+T> = None | Some(value: T)
}
