/** Optional values, used for the lookups and parsers that can fail. */
module Outcomes {

  datatype Option<+T> = None | Some(value: T)
}
