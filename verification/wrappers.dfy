/** The Some/None datatype used for fields a stored JSON document may lack
    and for lookups that may find nothing. */
module Wrappers {

  datatype Option<+T> = None | Some(value: T)
}
