/** Optional values: a JavaScript `NaN` or an absent field becomes `None`. */
module Wrappers {

  datatype Option<+T> = None | Some(value: T)

}
