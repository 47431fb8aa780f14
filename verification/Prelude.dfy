/** Small vocabulary shared by the protocol models. */
module Prelude {

  datatype Option<+T> = None | Some(value: T)

  datatype Result<+T, +E> = Ok(value: T) | Err(error: E)

  /** The outcome of one call to an external store, as the caller can observe it.
      `Done`: took effect and was acknowledged.  `Lost`: raised without taking effect.
      `Unacked`: took effect, but the caller saw an exception or died before the reply.
      A crash between two calls is a `Lost` second call; a crash right after a call is
      an `Unacked` one. */
  datatype Io = Done | Lost | Unacked {
    predicate Applied() { !Lost? }
  }
}
