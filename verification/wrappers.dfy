/** The two failure-carrying shapes the Rust code returns: `Option<T>` and
    `Result<T, String>` (every error in the modelled code is a `String`). */
module Wrappers {

  datatype Option<+T> = None | Some(value: T)

  datatype Result<+T> = Ok(value: T) | Err(msg: string)
}
