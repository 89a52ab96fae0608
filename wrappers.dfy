/** Optional values: `None` stands for the source's `nullptr`. */
module Wrappers {

  datatype Option<+T> = None | Some(value: T)

}
