/** The Some/None datatype used for values the source may lack (an absent
    date, a failed fetch, a missing regex match). */
module Wrappers {

  datatype Option<+T> = None | Some(value: T)
}
