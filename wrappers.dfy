/** The optional result used by the searches and by the producer of `Accumulate`
    (Rust's `Option`). */
module Wrappers {

  datatype Option<T> = None | Some(value: T)
}
