/** Optional values, used for numpy's masked entries (a masked entry is `None`). */
module Wrappers {

  datatype Option<+T> = None | Some(value: T)
}
