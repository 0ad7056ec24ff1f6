/** A minimal optional-value datatype, used for "not found" lookups and for
    the window's tick subscription (a subscribed handler, or none). */
module Wrappers {

  datatype Option<+T> = None | Some(value: T)
}
