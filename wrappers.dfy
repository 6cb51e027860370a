/** The optional value the board uses for "no project loaded", "no drop target" and "not found". */
module Wrappers {
  datatype Option<+T> = None | Some(value: T)
}
