/** Option, for the values the bot reads that may be `None`. */
module Wrappers {

  datatype Option<+T> = None | Some(value: T)
}
