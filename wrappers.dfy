/** Optional values: the model of `std::optional` and of entityx's weak entity handles. */
module Wrappers {

  datatype Option<+T> = None | Some(value: T)
}
