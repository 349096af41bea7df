/** The optional value the solvers return where the Rust code would panic or return `None`. */
module Wrappers {

  datatype Option<T> = None | Some(value: T)
}
