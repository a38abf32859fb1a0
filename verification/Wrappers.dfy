// Result types standing for the source's `Option` and `Result<_, GatewayError>`.
module Wrappers {

  datatype Option<+T> = None | Some(value: T)

  datatype Result<+T, +E> = Ok(value: T) | Err(error: E)
}
