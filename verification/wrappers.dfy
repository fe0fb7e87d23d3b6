/** The optional value the engine returns where Rust returns `Option`. */
module Wrappers {
  datatype Option<+T> = None | Some(value: T)
}
