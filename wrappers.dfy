/** Optional values: a missing local player, a failed projection, a lookup that found nothing. */
module Wrappers {

  datatype Option<+T> = None | Some(value: T)
}
