/** Optional values, used for the open order that may or may not exist and
    for order fields the exchange client treats as absent. */
module Wrappers {

  datatype Option<+T> = None | Some(value: T)
}
