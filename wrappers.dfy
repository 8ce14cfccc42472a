/** An optional value. It stands for a string search that finds nothing (`npos`), a line
    that defines nothing, and a file that cannot be opened. */
module Wrappers {
  datatype Option<+T> = None | Some(value: T)
}
