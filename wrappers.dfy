/** Optional values: a field the JSON body may leave out, a row a lookup may not find. */
module Wrappers {

  datatype Option<+T> = None | Some(value: T)
}
