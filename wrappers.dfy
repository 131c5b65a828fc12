/** Optional values: a nullable column or an absent / null input field. */
module Wrappers {

  datatype Option<+T> = None | Some(value: T)

}
