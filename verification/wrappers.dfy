/** A value that may be absent: a document lookup that found nothing, an unset field. */
module Wrappers {

  datatype Option<+T> = None | Some(value: T)
}
