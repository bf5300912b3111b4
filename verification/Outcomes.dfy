/** Option and Result, the shapes that the source's `None` returns and exceptions take in the model. */
module Outcomes {

  datatype Option<+T> = None | Some(value: T)

  datatype Result<+T, +E> = Ok(value: T) | Err(error: E)

  function Least(x: nat, y: nat): nat {
    if x <= y then x else y
  }
}
